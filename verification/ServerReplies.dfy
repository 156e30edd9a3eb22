/** What a client is sent back while other clients are served: its own line, and the lines that others
    have completed before and since. */
module ServerReplies {
  import opened Sequences
  import opened CircularBuffer
  import opened CommandLog
  import opened WriteRuns
  import opened DeviceRuns
  import opened SocketServer
  import opened ServerRuns

  /** The device's history after the first m turns. */
  function LogAt(x: Setting, turns: seq<Turn>, m: nat): Log {
    if m <= |turns| && Legal(x, turns[..m]) then After(x, turns[..m]).value.log else x.start
  }

  lemma {:induction false} PrefixLegal(x: Setting, turns: seq<Turn>, m: nat)
    requires Legal(x, turns) && m <= |turns|
    ensures Legal(x, turns[..m])
    decreases |turns|
  {
    if m == |turns| {
      assert turns[..m] == turns;
    } else {
      PrefixLegal(x, Init(turns), m);
      assert Init(turns)[..m] == turns[..m];
    }
  }

  lemma LogWellFormed(x: Setting, turns: seq<Turn>, m: nat)
    requires x.start.WellFormed() && Legal(x, turns) && m <= |turns|
    ensures LogAt(x, turns, m).WellFormed()
  {
    PrefixLegal(x, turns, m);
    ServerRuns.RunIsItsWrites(x, turns[..m]);
    WritesKeepWellFormed(x.start, Ops(x, turns[..m]));
  }

  /** A turn is a write of one block, or leaves the history alone. */
  lemma TurnAt(x: Setting, turns: seq<Turn>, k: nat)
    requires Legal(x, turns) && k < |turns|
    ensures Legal(x, turns[..k + 1])
    ensures LogAt(x, turns, k + 1) ==
            if IsSeekTo(LastBlock(x, turns[..k + 1])) then LogAt(x, turns, k)
            else LogAt(x, turns, k).Write(LastBlock(x, turns[..k + 1]), turns[k].outcome)
  {
    PrefixLegal(x, turns, k + 1);
    PrefixLegal(x, turns, k);
    assert Init(turns[..k + 1]) == turns[..k] && Final(turns[..k + 1]) == turns[k];
  }

  // ---------------------------------------------------------------------------------------------
  // Commands that stay, contents that grow
  // ---------------------------------------------------------------------------------------------

  lemma TurnKeepsCompleted(x: Setting, turns: seq<Turn>, k: nat)
    requires Legal(x, turns) && k < |turns|
    ensures LogAt(x, turns, k).completed <= LogAt(x, turns, k + 1).completed
  {
    TurnAt(x, turns, k);
  }

  lemma {:induction false} CompletedStays(x: Setting, turns: seq<Turn>, i: nat, j: nat)
    requires Legal(x, turns) && i <= j <= |turns|
    ensures LogAt(x, turns, i).completed <= LogAt(x, turns, j).completed
    decreases j - i
  {
    if i < j {
      CompletedStays(x, turns, i, j - 1);
      TurnKeepsCompleted(x, turns, j - 1);
    }
  }

  /** The k-th turn neither evicts a command nor discards pending bytes. */
  ghost predicate AppendsAt(x: Setting, turns: seq<Turn>, k: nat)
    requires k < |turns|
  {
    Legal(x, turns[..k + 1]) && !IsSeekTo(LastBlock(x, turns[..k + 1])) ==>
      OnlyAppends(LogAt(x, turns, k), LastBlock(x, turns[..k + 1]), turns[k].outcome)
  }

  lemma TurnGrows(x: Setting, turns: seq<Turn>, k: nat)
    requires x.start.WellFormed() && Legal(x, turns) && k < |turns| && AppendsAt(x, turns, k)
    ensures LogAt(x, turns, k).Content() <= LogAt(x, turns, k + 1).Content()
  {
    TurnAt(x, turns, k);
    LogWellFormed(x, turns, k);
    if !IsSeekTo(LastBlock(x, turns[..k + 1])) {
      WriteAppends(LogAt(x, turns, k), LastBlock(x, turns[..k + 1]), turns[k].outcome);
    }
  }

  function ContentsOf(logs: seq<Log>): (r: seq<string>)
    ensures |r| == |logs| && forall k :: 0 <= k < |logs| ==> r[k] == logs[k].Content()
  {
    seq(|logs|, k requires 0 <= k < |logs| => logs[k].Content())
  }

  lemma LogsGrow(logs: seq<Log>, i: nat, j: nat)
    requires i <= j < |logs| && Growing(ContentsOf(logs))
    ensures logs[i].Content() <= logs[j].Content()
  {
    GrowsFromTo(ContentsOf(logs), i, j);
  }

  /** The histories before, between and after turns i, ..., j - 1. */
  function LogsBetween(x: Setting, turns: seq<Turn>, i: nat, j: nat): (r: seq<Log>)
    requires i <= j
    ensures |r| == j - i + 1 && forall k :: 0 <= k < |r| ==> r[k] == LogAt(x, turns, i + k)
  {
    seq(j - i + 1, k requires 0 <= k <= j - i => LogAt(x, turns, i + k))
  }

  /** Turns i, ..., j - 1 neither evict nor discard. */
  ghost predicate OnlyAppendsBetween(x: Setting, turns: seq<Turn>, i: nat, j: nat) {
    forall k :: i <= k < j <= |turns| ==> AppendsAt(x, turns, k)
  }

  lemma LogsBetweenGrow(x: Setting, turns: seq<Turn>, i: nat, j: nat, k: nat)
    requires x.start.WellFormed() && Legal(x, turns) && i <= j <= |turns| && k < j - i
    requires OnlyAppendsBetween(x, turns, i, j)
    ensures GrowsAt(ContentsOf(LogsBetween(x, turns, i, j)), k)
  {
    assert AppendsAt(x, turns, i + k);
    TurnGrows(x, turns, i + k);
  }

  lemma LogsGrowing(x: Setting, turns: seq<Turn>, i: nat, j: nat)
    requires x.start.WellFormed() && Legal(x, turns) && i <= j <= |turns|
    requires OnlyAppendsBetween(x, turns, i, j)
    ensures Growing(ContentsOf(LogsBetween(x, turns, i, j)))
  {
    forall k | 0 <= k < j - i ensures GrowsAt(ContentsOf(LogsBetween(x, turns, i, j)), k) {
      LogsBetweenGrow(x, turns, i, j, k);
    }
  }

  lemma ContentStays(x: Setting, turns: seq<Turn>, i: nat, j: nat)
    requires x.start.WellFormed() && Legal(x, turns) && i <= j <= |turns|
    requires OnlyAppendsBetween(x, turns, i, j)
    ensures LogAt(x, turns, i).Content() <= LogAt(x, turns, j).Content()
  {
    LogsGrowing(x, turns, i, j);
    LogsGrow(LogsBetween(x, turns, i, j), 0, j - i);
  }

  // ---------------------------------------------------------------------------------------------
  // Replies
  // ---------------------------------------------------------------------------------------------

  /** The contents that the blocks of a replay are taken from, one after some number of turns each. */
  function ContentsAfter(x: Setting, turns: seq<Turn>, moments: seq<nat>): (r: seq<string>)
    ensures |r| == |moments|
    ensures forall k :: 0 <= k < |moments| ==> r[k] == LogAt(x, turns, moments[k]).Content()
  {
    seq(|moments|, k requires 0 <= k < |moments| => LogAt(x, turns, moments[k]).Content())
  }

  ghost predicate Ascending(moments: seq<nat>) {
    forall k :: 0 < k < |moments| ==> NotBefore(moments, k)
  }

  lemma {:induction false} AscendingFromTo(moments: seq<nat>, i: nat, j: nat)
    requires Ascending(moments) && i <= j < |moments|
    ensures moments[i] <= moments[j]
    decreases j - i
  {
    if i < j {
      AscendingFromTo(moments, i, j - 1);
      assert NotBefore(moments, j);
    }
  }

  /** Between the first and the last block of a replay, the others only append. */
  ghost predicate QuietReplay(x: Setting, turns: seq<Turn>, moments: seq<nat>)
    requires moments != []
  {
    && Ascending(moments) && Final(moments) <= |turns|
    && OnlyAppendsBetween(x, turns, moments[0], Final(moments))
  }

  lemma AppendsWithin(x: Setting, turns: seq<Turn>, i: nat, j: nat, i': nat, j': nat)
    requires OnlyAppendsBetween(x, turns, i, j) && i <= i' <= j' <= j <= |turns|
    ensures OnlyAppendsBetween(x, turns, i', j')
  {
  }

  lemma BlocksGrow(x: Setting, turns: seq<Turn>, moments: seq<nat>, k: nat)
    requires x.start.WellFormed() && Legal(x, turns) && k + 1 < |moments| && QuietReplay(x, turns, moments)
    ensures LogAt(x, turns, moments[k]).Content() <= LogAt(x, turns, moments[k + 1]).Content()
  {
    AscendingFromTo(moments, 0, k);
    AscendingFromTo(moments, k, k + 1);
    AscendingFromTo(moments, k + 1, |moments| - 1);
    AppendsWithin(x, turns, moments[0], Final(moments), moments[k], moments[k + 1]);
    ContentStays(x, turns, moments[k], moments[k + 1]);
  }

  lemma ContentsGrowing(x: Setting, turns: seq<Turn>, moments: seq<nat>)
    requires x.start.WellFormed() && Legal(x, turns) && moments != [] && QuietReplay(x, turns, moments)
    ensures Growing(ContentsAfter(x, turns, moments))
  {
    forall k | 0 <= k < |moments| - 1 ensures GrowsAt(ContentsAfter(x, turns, moments), k) {
      BlocksGrow(x, turns, moments, k);
    }
  }

  lemma ReplayFromStart(contents: seq<string>, sent: seq<string>)
    requires Replayed(contents, 0, sent)
    ensures Flatten(sent) == Final(contents)
  {
    ReplayOfContents(contents, 0, sent);
    assert Drop(Final(contents), 0) == Final(contents);
  }

  lemma ReplyIsContent(x: Setting, turns: seq<Turn>, moments: seq<nat>, sent: seq<string>)
    requires x.start.WellFormed() && Legal(x, turns) && moments != [] && QuietReplay(x, turns, moments)
    requires |sent| == |moments| && Taken(ContentsAfter(x, turns, moments), 0, sent)
    ensures Flatten(sent) == Final(ContentsAfter(x, turns, moments))
  {
    ContentsGrowing(x, turns, moments);
    ReplayFromStart(ContentsAfter(x, turns, moments), sent);
  }

  lemma FinalContent(x: Setting, turns: seq<Turn>, moments: seq<nat>)
    requires moments != []
    ensures Final(ContentsAfter(x, turns, moments)) == LogAt(x, turns, Final(moments)).Content()
  {
  }

  /** The places that completed commands have in the ring: one less while a command is open or missing. */
  function Room(l: Log): nat {
    if l.pending.Some? || l.hole then SLOTS - 1 else SLOTS
  }

  lemma ContentOfRoom(l: Log)
    ensures l.Content() == Flatten(Last(l.completed, Room(l))) + l.PendingBytes()
  {
    ContentForms(l);
  }

  lemma LastAround(before: seq<string>, line: string, more: seq<string>, n: nat)
    ensures Last(before + [line] + more, n)
         == if |more| < n then Last(before, n - 1 - |more|) + [line] + more else Last(more, n)
  {
  }

  lemma FlattenAround(a: seq<string>, line: string, b: seq<string>)
    ensures Flatten(a + [line] + b) == Flatten(a) + line + Flatten(b)
  {
    FlattenAppend(a + [line], b);
    FlattenSnoc(a, line);
  }

  /** What a reader sees when `line` has been completed after the commands `before` and ahead of `more`. */
  function Around(l: Log, before: seq<string>, line: string, more: seq<string>): string {
    if |more| < Room(l) then Flatten(Last(before, Room(l) - 1 - |more|)) + line + Flatten(more) + l.PendingBytes()
    else Flatten(Last(more, Room(l))) + l.PendingBytes()
  }

  lemma ContentAround(l: Log, before: seq<string>, line: string, more: seq<string>)
    requires l.completed == before + [line] + more
    ensures l.Content() == Around(l, before, line, more)
  {
    ContentOfRoom(l);
    LastAround(before, line, more, Room(l));
    if |more| < Room(l) {
      FlattenAround(Last(before, Room(l) - 1 - |more|), line, more);
    }
  }

  /** A client with an ordinary line is sent the device from its beginning. */
  lemma {:induction false} OrdinaryOffset(x: Setting, turns: seq<Turn>, c: nat)
    requires Legal(x, turns) && c < |x.lines| && Ordinary(x.lines[c])
    ensures After(x, turns).value.sessions[c].offset == 0
  {
    if turns != [] {
      OrdinaryOffset(x, Init(turns), c);
    }
  }

  /** The commands completed by turns i, ..., j - 1. */
  function CompletedBetween(x: Setting, turns: seq<Turn>, i: nat, j: nat): seq<string> {
    var front, all := LogAt(x, turns, i).completed, LogAt(x, turns, j).completed;
    if front <= all then all[|front|..] else []
  }

  lemma ContentAt(x: Setting, turns: seq<Turn>, i: nat, j: nat, line: string)
    requires Legal(x, turns) && i < j <= |turns|
    requires LogAt(x, turns, i + 1).completed == LogAt(x, turns, i).completed + [line]
    ensures LogAt(x, turns, j).Content()
         == Around(LogAt(x, turns, j), LogAt(x, turns, i).completed, line, CompletedBetween(x, turns, i + 1, j))
  {
    CompletedStays(x, turns, i + 1, j);
    ContentAround(LogAt(x, turns, j), LogAt(x, turns, i).completed, line, CompletedBetween(x, turns, i + 1, j));
  }

  lemma ReplyText(x: Setting, turns: seq<Turn>, moments: seq<nat>, sent: seq<string>)
    requires x.start.WellFormed() && Legal(x, turns) && moments != [] && QuietReplay(x, turns, moments)
    requires |sent| == |moments| && Taken(ContentsAfter(x, turns, moments), 0, sent)
    ensures Flatten(sent) == LogAt(x, turns, Final(moments)).Content()
  {
    ReplyIsContent(x, turns, moments, sent);
    FinalContent(x, turns, moments);
  }

  lemma EndsAfter(x: Setting, turns: seq<Turn>, moments: seq<nat>, i: nat)
    requires moments != [] && QuietReplay(x, turns, moments) && moments[0] > i
    ensures i < Final(moments) <= |turns|
  {
    AscendingFromTo(moments, 0, |moments| - 1);
  }

  lemma OffsetAt(x: Setting, turns: seq<Turn>, m: nat, c: nat)
    requires Legal(x, turns) && m <= |turns| && c < |x.lines| && Ordinary(x.lines[c])
    ensures Legal(x, turns[..m]) && After(x, turns[..m]).value.sessions[c].offset == 0
  {
    PrefixLegal(x, turns, m);
    OrdinaryOffset(x, turns[..m], c);
  }

  /** A client whose line has become a command with turn i, among any other clients, is sent the device from
      offset 0. Its reply holds that line, between the last commands before it and all those completed since, exactly as long as these
      are fewer than the completed commands the ring has room for; from then on it is made of later bytes
      only. Others may complete commands before the replay begins; during it they only append. */
  lemma ReplyHoldsOwnLine(x: Setting, turns: seq<Turn>, i: nat, c: nat, moments: seq<nat>, sent: seq<string>)
    requires x.start.WellFormed() && Legal(x, turns) && i < |turns|
    requires c < |x.lines| && Ordinary(x.lines[c])
    requires LogAt(x, turns, i + 1).completed == LogAt(x, turns, i).completed + [x.lines[c]]
    requires moments != [] && moments[0] > i && QuietReplay(x, turns, moments)
    requires |sent| == |moments| && Taken(ContentsAfter(x, turns, moments), 0, sent)
    ensures Legal(x, turns[..i + 1]) && After(x, turns[..i + 1]).value.sessions[c].offset == 0
    ensures Flatten(sent) == LogAt(x, turns, Final(moments)).Content()
    ensures LogAt(x, turns, Final(moments)).Content()
         == Around(LogAt(x, turns, Final(moments)), LogAt(x, turns, i).completed, x.lines[c],
                   CompletedBetween(x, turns, i + 1, Final(moments)))
  {
    OffsetAt(x, turns, i + 1, c);
    ReplyText(x, turns, moments, sent);
    EndsAfter(x, turns, moments, i);
    ContentAt(x, turns, i, Final(moments), x.lines[c]);
  }
}
