/** Blocks of several clients' lines in the order in which they stand in the log, whatever has been lost
    on the way: what commands they make, and when these are the clients' lines. */
module WholeLines {
  import opened Sequences
  import opened CommandLog
  import opened WriteRuns
  import opened SocketServer
  import opened ServerRuns

  function LineOf(lines: seq<string>, c: nat): string {
    if c < |lines| then lines[c] else ""
  }

  function LinesOf(lines: seq<string>, clients: seq<nat>): (r: seq<string>)
    ensures |r| == |clients|
  {
    if clients == [] then [] else LinesOf(lines, Init(clients)) + [LineOf(lines, Final(clients))]
  }

  function Count(tags: seq<Tag>, c: nat): nat {
    if tags == [] then 0 else Count(Init(tags), c) + if Final(tags).0 == c then 1 else 0
  }

  /** A block of a client's line that does not look like a SEEKTO request. */
  ghost predicate WrittenTag(lines: seq<string>, t: Tag) {
    t.0 < |lines| && t.1 < |Blocks(lines[t.0])| && !IsSeekTo(Piece(lines, t))
  }

  ghost predicate Written(lines: seq<string>, tags: seq<Tag>) {
    forall k :: 0 <= k < |tags| ==> WrittenTag(lines, tags[k])
  }

  lemma WrittenInit(lines: seq<string>, tags: seq<Tag>)
    requires Written(lines, tags) && tags != []
    ensures Written(lines, Init(tags))
  {
    forall k | 0 <= k < |tags| - 1 ensures WrittenTag(lines, Init(tags)[k]) {
      assert WrittenTag(lines, tags[k]);
    }
  }

  lemma WrittenFinal(lines: seq<string>, tags: seq<Tag>)
    requires Written(lines, tags) && tags != []
    ensures WrittenTag(lines, Final(tags))
  {
    assert WrittenTag(lines, tags[|tags| - 1]);
  }

  lemma WrittenTake(lines: seq<string>, tags: seq<Tag>, k: nat)
    requires Written(lines, tags) && k <= |tags|
    ensures Written(lines, tags[..k])
  {
    forall i | 0 <= i < k ensures WrittenTag(lines, tags[..k][i]) {
      assert WrittenTag(lines, tags[i]);
    }
  }

  // ---------------------------------------------------------------------------------------------
  // Commands and who completes them
  // ---------------------------------------------------------------------------------------------

  /** The last block of its line. */
  predicate IsEnd(lines: seq<string>, t: Tag) {
    t.0 < |lines| && t.1 + 1 == |Blocks(lines[t.0])|
  }

  /** No block has been written since a line ended. */
  predicate Closed(lines: seq<string>, tags: seq<Tag>) {
    tags == [] || IsEnd(lines, Final(tags))
  }

  /** The clients whose last blocks were written, in that order. */
  function Completers(lines: seq<string>, tags: seq<Tag>): seq<nat> {
    if tags == [] then []
    else if Closed(lines, tags) then Completers(lines, Init(tags)) + [Final(tags).0]
    else Completers(lines, Init(tags))
  }

  /** The blocks written since a line last ended, and those before. */
  function Pending(lines: seq<string>, tags: seq<Tag>): seq<Tag> {
    if Closed(lines, tags) then [] else Pending(lines, Init(tags)) + [Final(tags)]
  }

  function Finished(lines: seq<string>, tags: seq<Tag>): seq<Tag> {
    if Closed(lines, tags) then tags else Finished(lines, Init(tags))
  }

  lemma {:induction false} FinishedAndPending(lines: seq<string>, tags: seq<Tag>)
    ensures tags == Finished(lines, tags) + Pending(lines, tags) && Closed(lines, Finished(lines, tags))
  {
    if !Closed(lines, tags) {
      FinishedAndPending(lines, Init(tags));
      assert tags == Init(tags) + [Final(tags)];
    }
  }

  /** The commands the device makes of the blocks, and the bytes left pending. */
  function Commands(lines: seq<string>, tags: seq<Tag>): (seq<string>, string) {
    Grouped(Pieces(lines, tags))
  }

  /** Of the blocks of a line, the last one alone ends in a newline. */
  lemma EndIsTerminated(lines: seq<string>, t: Tag)
    requires t.0 < |lines| && t.1 < |Blocks(lines[t.0])| && IsLine(lines[t.0])
    ensures Terminated(Piece(lines, t)) <==> IsEnd(lines, t)
  {
    BlocksOfLine(lines[t.0]);
    assert BlockShape(Blocks(lines[t.0]), t.1);
  }

  lemma CommandsStep(lines: seq<string>, tags: seq<Tag>)
    requires AllLines(lines) && Written(lines, tags) && tags != []
    ensures var (commands, rest) := Commands(lines, Init(tags));
            var whole := rest + Piece(lines, Final(tags));
            Commands(lines, tags) == if Closed(lines, tags) then (commands + [whole], "") else (commands, whole)
  {
    WrittenFinal(lines, tags);
    EndIsTerminated(lines, Final(tags));
    assert Init(Pieces(lines, tags)) == Pieces(lines, Init(tags));
  }

  ghost predicate FullBlock(lines: seq<string>, t: Tag) {
    |Piece(lines, t)| == BLOCK && !IsSeekTo(Piece(lines, t))
  }

  ghost predicate AllFull(lines: seq<string>, tags: seq<Tag>) {
    forall k :: 0 <= k < |tags| ==> FullBlock(lines, tags[k])
  }

  lemma NotEndIsFull(lines: seq<string>, tags: seq<Tag>)
    requires AllLines(lines) && Written(lines, tags) && !Closed(lines, tags)
    ensures FullBlock(lines, Final(tags))
  {
    WrittenFinal(lines, tags);
    BlocksShape(LineOf(lines, Final(tags).0));
    assert BlockShape(Blocks(LineOf(lines, Final(tags).0)), Final(tags).1);
  }

  lemma {:induction false} PendingFull(lines: seq<string>, tags: seq<Tag>)
    requires AllLines(lines) && Written(lines, tags)
    ensures AllFull(lines, Pending(lines, tags))
  {
    if !Closed(lines, tags) {
      WrittenInit(lines, tags);
      PendingFull(lines, Init(tags));
      NotEndIsFull(lines, tags);
    }
  }

  lemma PiecesSnoc(lines: seq<string>, tags: seq<Tag>, t: Tag)
    ensures Pieces(lines, tags + [t]) == Pieces(lines, tags) + [Piece(lines, t)]
    ensures Flatten(Pieces(lines, tags + [t])) == Flatten(Pieces(lines, tags)) + Piece(lines, t)
  {
    assert Init(tags + [t]) == tags;
    FlattenSnoc(Pieces(lines, tags), Piece(lines, t));
  }

  lemma {:induction false} PendingPieces(lines: seq<string>, tags: seq<Tag>)
    requires AllLines(lines) && Written(lines, tags)
    ensures Commands(lines, tags).1 == Flatten(Pieces(lines, Pending(lines, tags)))
  {
    if tags != [] {
      WrittenInit(lines, tags);
      PendingPieces(lines, Init(tags));
      CommandsStep(lines, tags);
      PiecesSnoc(lines, Pending(lines, Init(tags)), Final(tags));
    }
  }

  /** The commands so far are the lines of the clients that completed them. */
  ghost predicate Matching(lines: seq<string>, tags: seq<Tag>) {
    Commands(lines, tags).0 == LinesOf(lines, Completers(lines, tags))
  }

  lemma LinesOfStep(lines: seq<string>, tags: seq<Tag>)
    requires tags != []
    ensures LinesOf(lines, Completers(lines, tags))
         == LinesOf(lines, Completers(lines, Init(tags))) + if Closed(lines, tags) then [LineOf(lines, Final(tags).0)] else []
  {
    if Closed(lines, tags) {
      var front := Completers(lines, Init(tags));
      assert Init(front + [Final(tags).0]) == front;
    }
  }

  lemma SameEnds(a: seq<string>, x: string, b: seq<string>, y: string)
    requires a + [x] == b + [y]
    ensures a == b && x == y
  {
    assert (a + [x])[..|a|] == a && (b + [y])[..|b|] == b;
    assert (a + [x])[|a|] == x && (b + [y])[|b|] == y;
  }

  lemma MatchingLast(lines: seq<string>, tags: seq<Tag>)
    requires AllLines(lines) && Written(lines, tags) && tags != [] && Matching(lines, tags) && Closed(lines, tags)
    ensures Matching(lines, Init(tags))
    ensures Commands(lines, Init(tags)).1 + Piece(lines, Final(tags)) == LineOf(lines, Final(tags).0)
  {
    CommandsStep(lines, tags);
    LinesOfStep(lines, tags);
    var (commands, rest) := Commands(lines, Init(tags));
    SameEnds(commands, rest + Piece(lines, Final(tags)),
             LinesOf(lines, Completers(lines, Init(tags))), LineOf(lines, Final(tags).0));
  }

  lemma MatchingStep(lines: seq<string>, tags: seq<Tag>)
    requires AllLines(lines) && Written(lines, tags) && tags != [] && Matching(lines, tags)
    ensures Matching(lines, Init(tags))
  {
    if Closed(lines, tags) {
      MatchingLast(lines, tags);
    } else {
      CommandsStep(lines, tags);
    }
  }

  lemma {:induction false} FinishedCommands(lines: seq<string>, tags: seq<Tag>)
    requires AllLines(lines) && Written(lines, tags)
    ensures var f := Finished(lines, tags);
            && Written(lines, f)
            && Commands(lines, f).0 == Commands(lines, tags).0
            && Completers(lines, f) == Completers(lines, tags)
  {
    if !Closed(lines, tags) {
      WrittenInit(lines, tags);
      FinishedCommands(lines, Init(tags));
      CommandsStep(lines, tags);
    }
  }

  // ---------------------------------------------------------------------------------------------
  // The exact condition, in terms of blocks
  // ---------------------------------------------------------------------------------------------

  /** If the k-th block ends a line, the blocks since a line last ended, and this one, are the blocks of
      that line. */
  ghost predicate WholeAt(lines: seq<string>, tags: seq<Tag>, k: nat)
    requires k < |tags|
  {
    IsEnd(lines, tags[k]) ==>
      Pieces(lines, Pending(lines, tags[..k])) + [Piece(lines, tags[k])] == Blocks(LineOf(lines, tags[k].0))
  }

  ghost predicate Whole(lines: seq<string>, tags: seq<Tag>) {
    forall k :: 0 <= k < |tags| ==> WholeAt(lines, tags, k)
  }

  /** Texts cut at the same places are equal piece by piece. */
  lemma {:induction false} SamePieces(a: seq<string>, b: seq<string>)
    requires |a| == |b| && Flatten(a) == Flatten(b)
    requires forall k :: 0 <= k < |a| ==> |a[k]| == |b[k]|
    ensures a == b
  {
    if a != [] {
      assert Flatten(a)[..|a[0]|] == a[0] && Flatten(b)[..|b[0]|] == b[0];
      assert Flatten(a)[|a[0]|..] == Flatten(a[1..]) && Flatten(b)[|b[0]|..] == Flatten(b[1..]);
      SamePieces(a[1..], b[1..]);
      assert a == [a[0]] + a[1..] && b == [b[0]] + b[1..];
    }
  }

  ghost predicate AllOfLength(pieces: seq<string>, n: nat) {
    forall k :: 0 <= k < |pieces| ==> |pieces[k]| == n
  }

  lemma {:induction false} FullLength(pieces: seq<string>)
    requires AllOfLength(pieces, BLOCK)
    ensures |Flatten(pieces)| == BLOCK * |pieces|
  {
    if pieces != [] {
      FullLength(pieces[1..]);
    }
  }

  /** A line made of full blocks and its own last block has just these blocks. */
  lemma BlocksMatch(line: string, front: seq<string>)
    requires IsLine(line) && Flatten(front) + Final(Blocks(line)) == line
    requires AllOfLength(front, BLOCK)
    ensures Blocks(line) == front + [Final(Blocks(line))]
  {
    var b := Blocks(line);
    var a := front + [Final(b)];
    BlocksOfLine(line);
    FullLength(front);
    FlattenSnoc(front, Final(b));
    assert |a| == |b|;
    forall k | 0 <= k < |a| ensures |a[k]| == |b[k]| {
      assert BlockShape(b, k);
    }
    SamePieces(a, b);
  }

  lemma EndPiece(lines: seq<string>, t: Tag)
    requires IsEnd(lines, t)
    ensures Piece(lines, t) == Final(Blocks(lines[t.0]))
  {
  }

  lemma FullPieces(lines: seq<string>, tags: seq<Tag>)
    requires AllFull(lines, tags)
    ensures AllOfLength(Pieces(lines, tags), BLOCK)
  {
    forall k | 0 <= k < |tags| ensures |Pieces(lines, tags)[k]| == BLOCK {
      assert FullBlock(lines, tags[k]);
    }
  }

  lemma CompletedText(lines: seq<string>, tags: seq<Tag>)
    requires AllLines(lines) && Written(lines, tags) && tags != [] && Matching(lines, tags) && Closed(lines, tags)
    ensures Flatten(Pieces(lines, Pending(lines, Init(tags)))) + Piece(lines, Final(tags)) == LineOf(lines, Final(tags).0)
  {
    MatchingLast(lines, tags);
    WrittenInit(lines, tags);
    PendingPieces(lines, Init(tags));
  }

  /** A completed command that is its client's line consists of the blocks of that line. */
  lemma CompletedBlocks(lines: seq<string>, tags: seq<Tag>)
    requires AllLines(lines) && Written(lines, tags) && tags != [] && Matching(lines, tags) && Closed(lines, tags)
    ensures Blocks(LineOf(lines, Final(tags).0))
         == Pieces(lines, Pending(lines, Init(tags))) + [Piece(lines, Final(tags))]
  {
    CompletedText(lines, tags);
    WrittenInit(lines, tags);
    WrittenFinal(lines, tags);
    EndPiece(lines, Final(tags));
    PendingFull(lines, Init(tags));
    FullPieces(lines, Pending(lines, Init(tags)));
    BlocksMatch(LineOf(lines, Final(tags).0), Pieces(lines, Pending(lines, Init(tags))));
  }

  lemma WholeStep(lines: seq<string>, tags: seq<Tag>)
    requires tags != []
    ensures Whole(lines, tags) <==> Whole(lines, Init(tags)) && WholeAt(lines, tags, |tags| - 1)
  {
    forall k | 0 <= k < |tags| - 1 ensures WholeAt(lines, tags, k) == WholeAt(lines, Init(tags), k) {
      assert tags[..k] == Init(tags)[..k];
    }
    if Whole(lines, tags) {
      forall k | 0 <= k < |tags| - 1 ensures WholeAt(lines, Init(tags), k) {
        assert WholeAt(lines, tags, k);
      }
    }
  }

  lemma WholeText(lines: seq<string>, tags: seq<Tag>)
    requires AllLines(lines) && Written(lines, tags) && tags != [] && Closed(lines, tags)
    requires WholeAt(lines, tags, |tags| - 1)
    ensures Commands(lines, Init(tags)).1 + Piece(lines, Final(tags)) == LineOf(lines, Final(tags).0)
  {
    assert tags[..|tags| - 1] == Init(tags);
    WrittenInit(lines, tags);
    WrittenFinal(lines, tags);
    PendingPieces(lines, Init(tags));
    FlattenSnoc(Pieces(lines, Pending(lines, Init(tags))), Piece(lines, Final(tags)));
    BlocksOfLine(LineOf(lines, Final(tags).0));
  }

  /** The commands are the lines of the clients that completed them exactly when each line that ends has
      its own bytes, block for block, since the end of the one before. */
  lemma {:induction false} MatchingIffWhole(lines: seq<string>, tags: seq<Tag>)
    requires AllLines(lines) && Written(lines, tags)
    ensures Matching(lines, tags) <==> Whole(lines, tags)
  {
    if tags != [] {
      assert tags[..|tags| - 1] == Init(tags);
      WrittenInit(lines, tags);
      MatchingIffWhole(lines, Init(tags));
      WholeStep(lines, tags);
      if Matching(lines, tags) {
        MatchingStep(lines, tags);
        if Closed(lines, tags) {
          CompletedBlocks(lines, tags);
        }
      }
      if Whole(lines, tags) {
        CommandsStep(lines, tags);
        LinesOfStep(lines, tags);
        if Closed(lines, tags) {
          WholeText(lines, tags);
        }
      }
    }
  }

  // ---------------------------------------------------------------------------------------------
  // One line at a time
  // ---------------------------------------------------------------------------------------------

  /** The k-th block is written by the client of the one before, unless that one ended a line. */
  predicate Undivided(lines: seq<string>, tags: seq<Tag>, k: nat)
    requires 0 < k < |tags|
  {
    IsEnd(lines, tags[k - 1]) || tags[k].0 == tags[k - 1].0
  }

  /** A line that ends here has had all its blocks written. */
  ghost predicate Unabridged(lines: seq<string>, tags: seq<Tag>, k: nat)
    requires k < |tags|
  {
    IsEnd(lines, tags[k]) ==> Count(tags[..k + 1], tags[k].0) == |Blocks(LineOf(lines, tags[k].0))|
  }

  ghost predicate OneLineAtATime(lines: seq<string>, tags: seq<Tag>) {
    && (forall k :: 0 < k < |tags| ==> Undivided(lines, tags, k))
    && (forall k :: 0 <= k < |tags| ==> Unabridged(lines, tags, k))
  }

  lemma {:induction false} CountAll(tags: seq<Tag>, c: nat)
    ensures Count(tags, c) <= |tags|
    ensures Count(tags, c) == |tags| ==> forall k :: 0 <= k < |tags| ==> tags[k].0 == c
  {
    if tags != [] {
      CountAll(Init(tags), c);
    }
  }

  lemma {:induction false} NoneOf(tags: seq<Tag>, c: nat)
    requires forall k :: 0 <= k < |tags| ==> tags[k].0 != c
    ensures Count(tags, c) == 0
  {
    if tags != [] {
      NoneOf(Init(tags), c);
    }
  }

  lemma {:induction false} CountAppend(a: seq<Tag>, b: seq<Tag>, c: nat)
    ensures Count(a + b, c) == Count(a, c) + Count(b, c)
  {
    if b == [] {
      assert a + b == a;
    } else {
      assert Init(a + b) == a + Init(b);
      CountAppend(a, Init(b), c);
    }
  }

  lemma {:induction false} CountOnly(tags: seq<Tag>, c: nat)
    requires forall k :: 0 <= k < |tags| ==> tags[k].0 == c
    ensures Count(tags, c) == |tags|
  {
    if tags != [] {
      CountOnly(Init(tags), c);
    }
  }

  lemma {:induction false} PendingNotEnds(lines: seq<string>, tags: seq<Tag>)
    ensures forall k :: 0 <= k < |Pending(lines, tags)| ==> !IsEnd(lines, Pending(lines, tags)[k])
  {
    if !Closed(lines, tags) {
      PendingNotEnds(lines, Init(tags));
    }
  }

  /** The j-th block, if no line ends from there to the k-th, is by the client of the k-th. */
  lemma {:induction false} ChainClient(lines: seq<string>, tags: seq<Tag>, j: nat, k: nat)
    requires j <= k < |tags| && OneLineAtATime(lines, tags)
    requires forall i :: j <= i < k ==> !IsEnd(lines, tags[i])
    ensures tags[j].0 == tags[k].0
    decreases k - j
  {
    if j < k {
      assert Undivided(lines, tags, j + 1);
      ChainClient(lines, tags, j + 1, k);
    }
  }

  /** From the j-th block on, the first line to end is that of its client. */
  lemma {:induction false} EndFollows(lines: seq<string>, tags: seq<Tag>, j: nat, m: nat) returns (e: nat)
    requires j < m <= |tags| && OneLineAtATime(lines, tags) && IsEnd(lines, tags[m - 1])
    ensures j <= e < m && IsEnd(lines, tags[e]) && tags[e].0 == tags[j].0
    decreases m - j
  {
    e := j;
    if !IsEnd(lines, tags[j]) {
      assert Undivided(lines, tags, j + 1);
      e := EndFollows(lines, tags, j + 1, m);
    }
  }

  /** The blocks since a line last ended are by the client that writes next, ... */
  lemma PendingByOne(lines: seq<string>, tags: seq<Tag>, k: nat)
    requires k < |tags| && OneLineAtATime(lines, tags)
    ensures forall i :: 0 <= i < |Pending(lines, tags[..k])| ==> Pending(lines, tags[..k])[i].0 == tags[k].0
  {
    var f, p := Finished(lines, tags[..k]), Pending(lines, tags[..k]);
    FinishedAndPending(lines, tags[..k]);
    PendingNotEnds(lines, tags[..k]);
    forall i | 0 <= i < |p| ensures p[i] == tags[|f| + i] {
      assert p[i] == (f + p)[|f| + i];
    }
    forall i | 0 <= i < |p| ensures p[i].0 == tags[k].0 {
      assert forall n :: |f| + i <= n < k ==> tags[n] == p[n - |f|];
      ChainClient(lines, tags, |f| + i, k);
    }
  }

  /** ... and if its line ends then, it has written none before. */
  lemma FinishedByOthers(lines: seq<string>, tags: seq<Tag>, k: nat)
    requires k < |tags| && OneLineAtATime(lines, tags) && InOrder(tags) && IsEnd(lines, tags[k])
    ensures Count(Finished(lines, tags[..k]), tags[k].0) == 0
  {
    var f := Finished(lines, tags[..k]);
    FinishedAndPending(lines, tags[..k]);
    assert |f| <= k && forall i :: 0 <= i < |f| ==> f[i] == tags[..k][i] == tags[i];
    forall i | 0 <= i < |f| ensures f[i].0 != tags[k].0 {
      if f[i].0 == tags[k].0 {
        assert IsEnd(lines, tags[|f| - 1]);
        var e := EndFollows(lines, tags, i, |f|);
        assert false;
      }
    }
    NoneOf(f, tags[k].0);
  }

  /** As many block numbers of a line as it has blocks, in increasing order, are all of them. */
  lemma {:induction false} AllNumbers(tags: seq<Tag>, n: nat, k: nat)
    requires k < |tags| == n && forall i :: 0 <= i < n ==> tags[i].1 < n
    requires forall i :: 0 < i < n ==> tags[i - 1].1 < tags[i].1
    ensures tags[k].1 >= k && tags[n - 1 - k].1 <= n - 1 - k
  {
    if k > 0 {
      AllNumbers(tags, n, k - 1);
      assert tags[n - 1 - k].1 < tags[n - k].1;
    }
  }

  /** The blocks that end a line one at a time: as many as it has, all of its client, in order. */
  lemma EndingBlocks(lines: seq<string>, tags: seq<Tag>, k: nat)
    requires k < |tags| && OneLineAtATime(lines, tags) && InOrder(tags) && IsEnd(lines, tags[k])
    ensures var p := Pending(lines, tags[..k]);
            && |p| + 1 == |Blocks(LineOf(lines, tags[k].0))|
            && (forall i :: 0 <= i < |p| ==> p[i].0 == tags[k].0 && p[i].1 < tags[k].1)
            && (forall i :: 0 < i < |p| ==> p[i - 1].1 < p[i].1)
  {
    var f, p, c := Finished(lines, tags[..k]), Pending(lines, tags[..k]), tags[k].0;
    FinishedAndPending(lines, tags[..k]);
    PendingByOne(lines, tags, k);
    FinishedByOthers(lines, tags, k);
    assert Unabridged(lines, tags, k);
    assert Init(tags[..k + 1]) == tags[..k] && Final(tags[..k + 1]) == tags[k];
    CountAppend(f, p, c);
    CountOnly(p, c);
    forall i | 0 <= i < |p| ensures p[i] == tags[|f| + i] && |f| + i < k {
      assert p[i] == (f + p)[|f| + i];
    }
  }

  lemma NumberedPieces(lines: seq<string>, tags: seq<Tag>, c: nat)
    requires c < |lines| && |tags| == |Blocks(lines[c])|
    requires forall i :: 0 <= i < |tags| ==> tags[i] == (c, i)
    ensures Pieces(lines, tags) == Blocks(lines[c])
  {
    forall i | 0 <= i < |tags| ensures Pieces(lines, tags)[i] == Blocks(lines[c])[i] {
      assert tags[i] == (c, i);
    }
  }

  lemma EndingIsWhole(lines: seq<string>, tags: seq<Tag>, k: nat)
    requires k < |tags| && OneLineAtATime(lines, tags) && InOrder(tags)
    ensures WholeAt(lines, tags, k)
  {
    if IsEnd(lines, tags[k]) {
      var p, c := Pending(lines, tags[..k]), tags[k].0;
      var all := p + [tags[k]];
      EndingBlocks(lines, tags, k);
      forall i | 0 <= i < |all| ensures all[i] == (c, i) {
        AllNumbers(all, |all|, i);
        AllNumbers(all, |all|, |all| - 1 - i);
      }
      NumberedPieces(lines, all, c);
      PiecesSnoc(lines, p, tags[k]);
    }
  }

  /** Whatever has been lost on the way: lines that are written one at a time, with all their blocks,
      are whole. */
  lemma OneLineAtATimeIsWhole(lines: seq<string>, tags: seq<Tag>)
    requires OneLineAtATime(lines, tags) && InOrder(tags)
    ensures Whole(lines, tags)
  {
    forall k | 0 <= k < |tags| ensures WholeAt(lines, tags, k) {
      EndingIsWhole(lines, tags, k);
    }
  }
}
