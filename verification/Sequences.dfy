/** Sums, concatenations and suffixes of sequences, shared by every layer of the model. */
module Sequences {

  datatype Option<+T> = None | Some(value: T)

  function Sum(s: seq<nat>): nat {
    if s == [] then 0 else s[0] + Sum(s[1..])
  }

  /** The bytes of all pieces, end to end. */
  function Flatten(ss: seq<string>): string {
    if ss == [] then "" else ss[0] + Flatten(ss[1..])
  }

  function Lengths(ss: seq<string>): (r: seq<nat>)
    ensures |r| == |ss|
    ensures forall j :: 0 <= j < |ss| ==> r[j] == |ss[j]|
  {
    seq(|ss|, j requires 0 <= j < |ss| => |ss[j]|)
  }

  /** The last n elements, or all of them when there are fewer. */
  function Last<T>(s: seq<T>, n: nat): (r: seq<T>)
    ensures |r| == if |s| <= n then |s| else n
  {
    if |s| <= n then s else s[|s| - n..]
  }

  function Empties(n: nat): (r: seq<string>)
    ensures |r| == n && forall j :: 0 <= j < n ==> r[j] == ""
  {
    if n == 0 then [] else [""] + Empties(n - 1)
  }

  function Drop(s: string, n: nat): string {
    if n <= |s| then s[n..] else ""
  }

  lemma DropTwice(s: string, a: nat, b: nat)
    ensures Drop(Drop(s, a), b) == Drop(s, a + b)
  {
    if a + b <= |s| {
      assert s[a..][b..] == s[a + b..];
    }
  }

  lemma {:induction false} FlattenAppend(a: seq<string>, b: seq<string>)
    ensures Flatten(a + b) == Flatten(a) + Flatten(b)
  {
    if a == [] {
      assert a + b == b;
    } else {
      assert (a + b)[1..] == a[1..] + b;
      FlattenAppend(a[1..], b);
    }
  }

  lemma FlattenSnoc(a: seq<string>, x: string)
    ensures Flatten(a + [x]) == Flatten(a) + x
  {
    FlattenAppend(a, [x]);
    assert Flatten([x]) == x;
  }

  lemma FlattenTake(ss: seq<string>, k: nat)
    requires k < |ss|
    ensures Flatten(ss[..k + 1]) == Flatten(ss[..k]) + ss[k]
  {
    assert ss[..k + 1] == ss[..k] + [ss[k]];
    FlattenSnoc(ss[..k], ss[k]);
  }

  lemma {:induction false} FlattenEmpties(n: nat)
    ensures Flatten(Empties(n)) == ""
  {
    if n > 0 {
      assert Empties(n)[1..] == Empties(n - 1);
      FlattenEmpties(n - 1);
    }
  }

  lemma FlattenSplit(ss: seq<string>, j: nat)
    requires j < |ss|
    ensures Flatten(ss) == Flatten(ss[..j]) + ss[j] + Flatten(ss[j + 1..])
  {
    var head, tail := ss[..j], ss[j..];
    assert ss == head + tail;
    FlattenAppend(head, tail);
    assert tail[1..] == ss[j + 1..];
  }

  lemma FlattenUpdate(ss: seq<string>, j: nat, x: string)
    requires j < |ss|
    ensures |Flatten(ss[j := x])| == |Flatten(ss)| - |ss[j]| + |x|
  {
    var u := ss[j := x];
    FlattenSplit(ss, j);
    FlattenSplit(u, j);
    assert u[..j] == ss[..j] && u[j + 1..] == ss[j + 1..];
  }

  lemma {:induction false} FlattenLength(ss: seq<string>)
    ensures |Flatten(ss)| == Sum(Lengths(ss))
  {
    if ss != [] {
      assert Lengths(ss)[1..] == Lengths(ss[1..]);
      FlattenLength(ss[1..]);
    }
  }

  lemma FlattenPrefixLength(ss: seq<string>, j: nat)
    requires j <= |ss|
    ensures Sum(Lengths(ss)[..j]) == |Flatten(ss[..j])|
  {
    assert Lengths(ss)[..j] == Lengths(ss[..j]);
    FlattenLength(ss[..j]);
  }

  /** The k-th text is a prefix of the next one. */
  ghost predicate GrowsAt(ss: seq<string>, k: nat)
    requires k + 1 < |ss|
  {
    ss[k] <= ss[k + 1]
  }

  lemma {:induction false} GrowsFromTo(ss: seq<string>, i: nat, j: nat)
    requires i <= j < |ss| && forall k :: 0 <= k < |ss| - 1 ==> GrowsAt(ss, k)
    ensures ss[i] <= ss[j]
    decreases j - i
  {
    if i < j {
      GrowsFromTo(ss, i, j - 1);
      assert GrowsAt(ss, j - 1);
    }
  }

  lemma {:induction false} SumAppend(a: seq<nat>, b: seq<nat>)
    ensures Sum(a + b) == Sum(a) + Sum(b)
  {
    if a == [] {
      assert a + b == b;
    } else {
      assert (a + b)[1..] == a[1..] + b;
      SumAppend(a[1..], b);
    }
  }

  lemma SumStep(s: seq<nat>, k: nat)
    requires k < |s|
    ensures Sum(s[..k + 1]) == Sum(s[..k]) + s[k]
  {
    assert s[..k + 1] == s[..k] + [s[k]];
    SumAppend(s[..k], [s[k]]);
  }

  lemma SumMonotone(s: seq<nat>, i: nat, j: nat)
    requires i <= j <= |s|
    ensures Sum(s[..i]) <= Sum(s[..j])
  {
    assert s[..j] == s[..i] + s[i..j];
    SumAppend(s[..i], s[i..j]);
  }
}
