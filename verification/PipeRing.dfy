/**
  read_pipe and write_pipe of fs/pipe.c: a page used as a ring.  A call moves its bytes in chunks
  that do not wrap and may sleep between them, so a chunk is the unit of interleaving.

  `written` and `taken` are all the bytes that went in and came out.
 */
module PipeRing {
  const PAGE: nat := 4096

  function Least(a: nat, b: nat, c: nat): (r: nat)
    ensures r <= a && r <= b && r <= c && (r == a || r == b || r == c)
  {
    if a <= b && a <= c then a else if b <= c then b else c
  }

  /** PIPE_SIZE. */
  function Held(head: nat, tail: nat): (n: nat)
    ensures n < PAGE
  {
    (head - tail) % PAGE
  }

  /** The `n` bytes from `tail` on, around the end of the page. */
  function Ring(page: seq<nat>, tail: nat, n: nat): (r: seq<nat>)
    requires |page| == PAGE
    ensures |r| == n
  {
    seq(n, i requires 0 <= i => page[(tail + i) % PAGE])
  }

  lemma HeldMore(head: nat, tail: nat, n: nat)
    requires head < PAGE && tail < PAGE && Held(head, tail) + n < PAGE && head + n <= PAGE
    ensures Held((head + n) % PAGE, tail) == Held(head, tail) + n
  {
    hide Held;
    HeldIs(head, tail);
    HeldIs(Wrapped(head + n), tail);
  }

  /** An index that has moved up to the end of the page, brought back into it. */
  function Wrapped(x: nat): (r: nat)
    requires x <= PAGE
    ensures r == x % PAGE
  {
    if x == PAGE then 0 else x
  }

  lemma HeldIs(head: nat, tail: nat)
    requires head < PAGE && tail < PAGE
    ensures Held(head, tail) == if tail <= head then head - tail else head + PAGE - tail
  {
  }

  lemma HeldLess(head: nat, tail: nat, n: nat)
    requires head < PAGE && tail < PAGE && n <= Held(head, tail) && tail + n <= PAGE
    ensures Held(head, (tail + n) % PAGE) == Held(head, tail) - n
  {
    hide Held;
    HeldIs(head, tail);
    HeldIs(head, Wrapped(tail + n));
  }

  lemma RingSplit(page: seq<nat>, tail: nat, n: nat, k: nat)
    requires |page| == PAGE && k <= n <= PAGE && tail + k <= PAGE
    ensures Ring(page, tail, n) == page[tail..tail + k] + Ring(page, (tail + k) % PAGE, n - k)
  {
    var a, b := page[tail..tail + k], Ring(page, (tail + k) % PAGE, n - k);
    forall i | 0 <= i < n
      ensures Ring(page, tail, n)[i] == (a + b)[i]
    {
      assert i >= k ==> (tail + i) % PAGE == ((tail + k) % PAGE + (i - k)) % PAGE;
    }
  }

  /** Where byte `i` of the ring lies, before and after `m` bytes are added at `head`. */
  lemma RingPlace(tail: nat, head: nat, i: nat, n: nat, m: nat)
    requires tail < PAGE && head < PAGE && n == Held(head, tail) && n + m < PAGE && head + m <= PAGE && i < n + m
    ensures var x := (tail + i) % PAGE; if i < n then !(head <= x < head + m) else x == head + (i - n)
  {
  }

  lemma RingExtend(page: seq<nat>, page': seq<nat>, tail: nat, n: nat, head: nat, bytes: seq<nat>)
    requires |page| == |page'| == PAGE && tail < PAGE && head < PAGE && n == Held(head, tail)
    requires n + |bytes| < PAGE && head + |bytes| <= PAGE
    requires page' == page[..head] + bytes + page[head + |bytes|..]
    ensures Ring(page', tail, n + |bytes|) == Ring(page, tail, n) + bytes
  {
    forall i | 0 <= i < n + |bytes|
      ensures Ring(page', tail, n + |bytes|)[i] == (Ring(page, tail, n) + bytes)[i]
    {
      var x := (tail + i) % PAGE;
      RingPlace(tail, head, i, n, |bytes|);
      assert page'[x] == if i < n then page[x] else bytes[i - n];
    }
  }

  lemma Assoc(a: seq<nat>, b: seq<nat>, c: seq<nat>)
    ensures (a + b) + c == a + (b + c)
  {
  }

  datatype Chunk = Write(buf: seq<nat>) | Read(count: nat)

  class Pipe {
    const page: array<nat>
    var head: nat
    var tail: nat
    ghost var written: seq<nat>
    ghost var taken: seq<nat>

    ghost function Contents(): seq<nat>
      requires page.Length == PAGE
      reads this, page
    {
      Ring(page[..], tail, Held(head, tail))
    }

    /** Everything written has been read or is in the ring, in order. */
    ghost predicate Valid()
      reads this, page
    {
      page.Length == PAGE && head < PAGE && tail < PAGE && written == taken + Contents()
    }

    constructor ()
      ensures Valid() && written == taken == Contents() == [] && fresh(page)
    {
      page := new nat[PAGE];
      head, tail, written, taken := 0, 0, [], [];
    }

    /** One round of the loop of write_pipe; 0 means the ring is full and the caller sleeps or gives up. */
    method WriteChunk(buf: seq<nat>) returns (chars: nat)
      requires Valid()
      modifies this, page
      ensures Valid() && chars <= |buf| && taken == old(taken) && written == old(written) + buf[..chars]
      ensures Contents() == old(Contents()) + buf[..chars]
      ensures |Contents()| <= PAGE - 1
      ensures chars == 0 <==> buf == [] || |old(Contents())| == PAGE - 1
      ensures chars == Least(PAGE - old(head), |buf|, PAGE - 1 - |old(Contents())|)
    {
      hide Ring, Held;
      var size := PAGE - 1 - Held(head, tail);
      if size == 0 { return 0; }
      chars := PAGE - head;
      if chars > |buf| { chars := |buf|; }
      if chars > size { chars := size; }
      var at := head;
      ghost var before := page[..];
      head := (head + chars) % PAGE;
      CopyIn(at, buf[..chars]);
      RingExtend(before, page[..], tail, Held(at, tail), at, buf[..chars]);
      HeldMore(at, tail, chars);
      Assoc(taken, Ring(before, tail, Held(at, tail)), buf[..chars]);
      written := written + buf[..chars];
    }

    method CopyIn(at: nat, bytes: seq<nat>)
      requires page.Length == PAGE && at + |bytes| <= PAGE
      modifies page
      ensures page[..] == old(page[..])[..at] + bytes + old(page[..])[at + |bytes|..]
    {
      var i := 0;
      while i < |bytes|
        invariant i <= |bytes|
        invariant forall k :: 0 <= k < PAGE ==> page[k] == if at <= k < at + i then bytes[k - at] else old(page[k])
      {
        page[at + i] := bytes[i];
        i := i + 1;
      }
    }

    /** One round of the loop of read_pipe; nothing is read only from an empty ring. */
    method ReadChunk(count: nat) returns (bytes: seq<nat>)
      requires Valid()
      modifies this
      ensures Valid() && |bytes| <= count && written == old(written) && taken == old(taken) + bytes
      ensures old(Contents()) == bytes + Contents()
      ensures bytes == [] <==> count == 0 || old(Contents()) == []
      ensures |bytes| == Least(PAGE - old(tail), count, |old(Contents())|)
    {
      hide Ring, Held;
      bytes := [];
      var size := Held(head, tail);
      if size == 0 { return; }
      var chars := PAGE - tail;
      if chars > count { chars := count; }
      if chars > size { chars := size; }
      var at := tail;
      RingSplit(page[..], tail, size, chars);
      HeldLess(head, tail, chars);
      tail := (tail + chars) % PAGE;
      bytes := CopyOut(at, chars);
      Assoc(taken, bytes, Contents());
      taken := taken + bytes;
    }

    method CopyOut(at: nat, chars: nat) returns (bytes: seq<nat>)
      requires page.Length == PAGE && at + chars <= PAGE
      ensures bytes == page[..][at..at + chars]
    {
      bytes := [];
      var i := 0;
      while i < chars
        invariant i <= chars && bytes == page[..][at..at + i]
      {
        bytes := bytes + [page[at + i]];
        i := i + 1;
      }
    }

    /**
      Any interleaving of chunks of any readers and writers: the ring is a queue of at most PAGE - 1
      bytes, and a chunk moves nothing only when it has to wait.
     */
    method Run(chunks: seq<Chunk>) returns (moved: seq<nat>, out: seq<nat>)
      requires Valid()
      modifies this, page
      ensures Valid() && AllMove(old(Contents()), chunks, moved) && |moved| == |chunks|
      ensures Contents() == Queue(old(Contents()), chunks, moved).0 && out == Queue(old(Contents()), chunks, moved).1
      ensures old(Contents()) + Accepted(chunks, moved) == out + Contents() && |Contents()| <= PAGE - 1
    {
      hide Ring, Held;
      moved, out := [], [];
      ghost var q := Contents();
      for i := 0 to |chunks|
        invariant Valid() && |moved| == i && AllMove(q, chunks, moved) && Queue(q, chunks, moved) == (Contents(), out)
      {
        ghost var now := Contents();
        var n;
        match chunks[i] {
          case Write(buf) =>
            n := WriteChunk(buf);
          case Read(count) =>
            var bytes := ReadChunk(count);
            n := |bytes|;
            out := out + bytes;
        }
        QueueMore(q, chunks, moved, n);
        moved := moved + [n];
      }
      QueueConserves(q, chunks, moved);
    }
  }

  /** The queue of bytes and all that has been read, after the chunks that `moved` tells of. */
  function Queue(q: seq<nat>, chunks: seq<Chunk>, moved: seq<nat>): (seq<nat>, seq<nat>)
    requires |moved| <= |chunks|
  {
    if moved == [] then (q, [])
    else
      var i := |moved| - 1;
      Moved(Queue(q, chunks, moved[..i]), chunks[i], moved[i])
  }

  function Moved(s: (seq<nat>, seq<nat>), c: Chunk, n: nat): (seq<nat>, seq<nat>) {
    match c
    case Write(buf) => (s.0 + if n <= |buf| then buf[..n] else buf, s.1)
    case Read(_) => if n <= |s.0| then (s.0[n..], s.1 + s.0[..n]) else s
  }

  /** The bytes taken from writers, in order. */
  function Accepted(chunks: seq<Chunk>, moved: seq<nat>): seq<nat>
    requires |moved| <= |chunks|
  {
    if moved == [] then []
    else
      var i := |moved| - 1;
      Accepted(chunks, moved[..i]) + Input(chunks[i], moved[i])
  }

  function Input(c: Chunk, n: nat): seq<nat> {
    if c.Write? && n <= |c.buf| then c.buf[..n] else []
  }

  /** How much a chunk moves: no more than asked or than fits, and nothing only if it must wait. */
  predicate Moves(q: seq<nat>, c: Chunk, n: nat) {
    match c
    case Write(buf) => n <= |buf| && |q| + n <= PAGE - 1 && (n == 0 <==> buf == [] || |q| == PAGE - 1)
    case Read(count) => n <= count && n <= |q| && (n == 0 <==> count == 0 || q == [])
  }

  ghost predicate AllMove(q: seq<nat>, chunks: seq<Chunk>, moved: seq<nat>) {
    |moved| <= |chunks| && forall i :: 0 <= i < |moved| ==> Moves(Queue(q, chunks, moved[..i]).0, chunks[i], moved[i])
  }

  lemma QueueMore(q: seq<nat>, chunks: seq<Chunk>, moved: seq<nat>, n: nat)
    requires AllMove(q, chunks, moved) && |moved| < |chunks| && Moves(Queue(q, chunks, moved).0, chunks[|moved|], n)
    ensures AllMove(q, chunks, moved + [n])
    ensures Queue(q, chunks, moved + [n]) == Moved(Queue(q, chunks, moved), chunks[|moved|], n)
  {
    hide Moves, Moved;
    var more := moved + [n];
    assert more[..|moved|] == moved;
    forall i | 0 <= i < |more|
      ensures Moves(Queue(q, chunks, more[..i]).0, chunks[i], more[i])
    {
      assert more[..i] == if i < |moved| then moved[..i] else moved;
    }
  }

  /** What was there and what went in is what came out and what is there. */
  lemma {:induction false} QueueConserves(q: seq<nat>, chunks: seq<Chunk>, moved: seq<nat>)
    requires AllMove(q, chunks, moved)
    ensures var s := Queue(q, chunks, moved); q + Accepted(chunks, moved) == s.1 + s.0
  {
    hide Moves, Moved, Input;
    if moved != [] {
      var i := |moved| - 1;
      var before := moved[..i];
      forall k | 0 <= k < i
        ensures Moves(Queue(q, chunks, before[..k]).0, chunks[k], before[k])
      {
        assert before[..k] == moved[..k];
      }
      QueueConserves(q, chunks, before);
      OneMove(q, Accepted(chunks, before), Queue(q, chunks, before), chunks[i], moved[i]);
    }
  }

  lemma OneMove(q: seq<nat>, a: seq<nat>, s: (seq<nat>, seq<nat>), c: Chunk, n: nat)
    requires q + a == s.1 + s.0 && Moves(s.0, c, n)
    ensures var s' := Moved(s, c, n); q + (a + Input(c, n)) == s'.1 + s'.0
  {
    Assoc(q, a, Input(c, n));
    match c {
      case Write(buf) => Assoc(s.1, s.0, buf[..n]);
      case Read(_) =>
        Assoc(s.1, s.0[..n], s.0[n..]);
        assert s.0 == s.0[..n] + s.0[n..];
    }
  }
}
