/** sb_t: the growable, NUL-terminated byte buffer the command-line printers
    append to. A refused allocation latches `failed` and no later append undoes it. */
module StrBuf {
  import opened Memory
  import opened TclValues

  const SIZE_MAX: nat := 0xFFFF_FFFF_FFFF_FFFF
  const FIRST_CAP: nat := 64

  class Buffer {
    const heap: Heap
    var p: array<char>
    var len: nat
    var failed: bool

    predicate Valid()
      reads this, p
    {
      !failed ==> FIRST_CAP <= p.Length && len < p.Length && p[len] == '\0'
    }

    /** The C string held. */
    function Text(): string
      requires Valid() && !failed
      reads this, p
    {
      p[..len]
    }

    /** On the way to `whole`, with `done` written so far: either the buffer holds
        `done`, or it failed and there is a reason. */
    ghost predicate Built(done: string, whole: string)
      reads this, p
    {
      Valid() && |done| <= |whole|
      && (failed ==> Starved(heap) || |whole| + 1 > SIZE_MAX)
      && (!failed ==> Text() == done)
    }

    constructor (heap: Heap)
      modifies heap
      ensures Valid() && this.heap == heap && fresh(p)
      ensures failed == !heap.grants(old(heap.calls))
      ensures forall whole :: Built("", whole)
    {
      var ok := heap.Malloc();
      this.heap := heap;
      len := 0;
      failed := !ok;
      p := new char[if ok then FIRST_CAP else 0];
      new;
      if !failed { p[0] := '\0'; }
    }

    /** sb_ensure: room for `extra` more characters and the terminator. */
    method Ensure(extra: nat)
      requires Valid()
      modifies this, heap
      ensures Valid() && (p == old(p) || fresh(p)) && len == old(len)
      ensures old(failed) ==> failed
      ensures !failed ==> Text() == old(Text()) && len + extra < p.Length
      ensures failed && !old(failed) ==> Starved(heap) || old(len) + extra + 1 > SIZE_MAX
    {
      if failed { return; }
      if extra > SIZE_MAX - len - 1 { failed := true; return; }
      var need := len + extra + 1;
      if need > p.Length {
        var cap := p.Length;
        while cap < need
          invariant FIRST_CAP <= cap && p.Length <= cap
          decreases need - cap
        {
          if cap > SIZE_MAX / 2 { cap := need; break; }
          cap := cap * 2;
        }
        var ok := heap.Malloc();
        if !ok { failed := true; return; }
        var q := new char[cap];
        forall i | 0 <= i < p.Length { q[i] := p[i]; }
        assert q[..len] == p[..len];
        p := q;
      }
    }

    /** sb_puts; sb_putc is the one-character case. */
    method Puts(s: string, ghost done: string, ghost whole: string)
      requires Built(done, whole) && |done| + |s| <= |whole|
      modifies this, p, heap
      ensures (p == old(p) || fresh(p)) && Built(done + s, whole)
      ensures old(failed) ==> failed
    {
      Ensure(|s|);
      if failed { return; }
      forall i | 0 <= i < |s| { p[len + i] := s[i]; }
      p[len + |s|] := '\0';
      assert p[..len + |s|] == done + s;
      len := len + |s|;
    }

    lemma WhyFailed(done: string, whole: string)
      requires Built(done, whole) && failed
      ensures Starved(heap) || |whole| + 1 > SIZE_MAX
    {
    }

    /** The caller's last test: the finished string, or NULL after a failed append. */
    method Finish(ghost whole: string) returns (r: Option<string>)
      requires Built(whole, whole)
      ensures r.Some? ==> r.value == whole
      ensures r.None? ==> Starved(heap) || |whole| + 1 > SIZE_MAX
    {
      r := if failed then None else Some(Text());
    }
  }
}
