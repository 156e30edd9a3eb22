/** The kernel heap as far as the driver uses it: data buffers obtained from kmalloc. */
module KernelMemory {
  import opened CircularBuffer

  class Kmem {
    /** The live data buffers by address. */
    var live: map<nat, string>

    ghost predicate Valid()
      reads this
    {
      NULL !in live
    }

    constructor ()
      ensures Valid() && live == map[]
    {
      live := map[];
    }

    /** Any address not in use may come back, with arbitrary contents; or NULL. */
    method Kmalloc(size: nat, available: bool) returns (p: nat)
      requires Valid()
      modifies this
      ensures Valid()
      ensures if available then
                p != NULL && p !in old(live) && p in live && |live[p]| == size && live == old(live)[p := live[p]]
              else p == NULL && live == old(live)
    {
      if !available {
        return NULL;
      }
      FreeAddressExists(live.Keys);
      p :| p != NULL && p !in live;
      assert |seq(size, _ => 'x')| == size;
      var contents: string :| |contents| == size;
      live := live[p := contents];
    }

    /** Freeing an address that is not live would break the precondition; NULL is ignored. */
    method Kfree(p: nat)
      requires Valid() && (p == NULL || p in live)
      modifies this
      ensures Valid() && live == old(live) - {p}
    {
      live := live - {p};
    }

    /** Copying bytes into a live buffer, within its bounds. */
    method Store(p: nat, at: nat, bytes: string)
      requires Valid() && p in live && at + |bytes| <= |live[p]|
      modifies this
      ensures Valid() && live == old(live)[p := Overwrite(old(live[p]), at, bytes)]
    {
      live := live[p := Overwrite(live[p], at, bytes)];
    }
  }

  function Overwrite(s: string, at: nat, bytes: string): (r: string)
    requires at + |bytes| <= |s|
    ensures |r| == |s|
    ensures forall i :: 0 <= i < |s| ==> r[i] == if at <= i < at + |bytes| then bytes[i - at] else s[i]
  {
    s[..at] + bytes + s[at + |bytes|..]
  }

  lemma OverwriteHead(s: string, bytes: string)
    requires |bytes| <= |s|
    ensures Overwrite(s, 0, bytes)[..|bytes|] == bytes
  {
  }

  lemma OverwriteTail(s: string, bytes: string)
    requires |bytes| <= |s|
    ensures Overwrite(s, |s| - |bytes|, bytes) == s[..|s| - |bytes|] + bytes
  {
  }

  lemma {:induction false} AddressBound(used: set<nat>) returns (b: nat)
    ensures forall p :: p in used ==> p < b
  {
    if used == {} {
      b := 0;
    } else {
      var p :| p in used;
      var c := AddressBound(used - {p});
      b := if c > p then c else p + 1;
      assert forall q :: q in used ==> q == p || q in used - {p};
    }
  }

  lemma FreeAddressExists(used: set<nat>)
    ensures exists p: nat :: p != NULL && p !in used
  {
    var b := AddressBound(used);
    assert b + 1 !in used;
  }
}
