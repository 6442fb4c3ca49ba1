/**
 * Reading the reply to a proxy CONNECT request, and the wrapper that hands out the bytes
 * that were read past the reply's head before reading on. How many bytes each read delivers
 * is up to the network: `offers(k)` is what it has ready at the k-th read.
 */
module ConnectTunnel {
  import opened Wrappers

  newtype Byte = x: int | 0 <= x < 256

  const BUFFER: nat := 512
  const LIMIT: nat := 8192

  /** A read delivers something unless the stream is over or the buffer has no room. */
  function Delivered(left: nat, capacity: nat, offer: nat): (n: nat)
    ensures n <= left && n <= capacity && (n == 0 <==> left == 0 || capacity == 0)
  {
    var most := if left < capacity then left else capacity;
    if offer < 1 then (if most < 1 then most else 1) else if offer < most then offer else most
  }

  /** What the proxy sends before it closes, and how much of it was read. */
  class ByteStream {
    const bytes: seq<Byte>
    var position: nat

    constructor (bytes: seq<Byte>)
      ensures this.bytes == bytes && position == 0
    {
      this.bytes := bytes;
      position := 0;
    }

    method Read(capacity: nat, offer: nat) returns (chunk: seq<Byte>)
      requires position <= |bytes|
      modifies this
      ensures position == old(position) + Delivered(|bytes| - old(position), capacity, offer) <= |bytes|
      ensures chunk == bytes[old(position)..position]
    {
      var n := Delivered(|bytes| - position, capacity, offer);
      chunk := bytes[position..position + n];
      position := position + n;
    }
  }

  // ---------------------------------------------------------------------- the head's end

  /** A blank line ends right before position `e`. */
  predicate EndsAt(s: seq<Byte>, e: nat) {
    4 <= e <= |s| && s[e - 4] == 13 && s[e - 3] == 10 && s[e - 2] == 13 && s[e - 1] == 10
  }

  function FindEndFrom(s: seq<Byte>, e: nat): (r: Option<nat>)
    ensures r.None? ==> forall x: nat :: e <= x ==> !EndsAt(s, x)
    ensures r.Some? ==> e <= r.value && EndsAt(s, r.value) && forall x: nat :: e <= x < r.value ==> !EndsAt(s, x)
    decreases |s| - e
  {
    if e > |s| then None else if EndsAt(s, e) then Some(e) else FindEndFrom(s, e + 1)
  }

  /** The position after the first blank line. */
  function FindEnd(s: seq<Byte>): (r: Option<nat>)
    ensures r.None? ==> forall x: nat :: !EndsAt(s, x)
    ensures r.Some? ==> EndsAt(s, r.value) && forall x: nat :: x < r.value ==> !EndsAt(s, x)
  {
    FindEndFrom(s, 4)
  }

  lemma FindEndInPrefix(s: seq<Byte>, n: nat)
    requires n <= |s|
    ensures FindEnd(s[..n]) == if FindEnd(s).Some? && FindEnd(s).value <= n then FindEnd(s) else None
  {
    assert forall x: nat :: EndsAt(s[..n], x) <==> EndsAt(s, x) && x <= n;
  }

  // -------------------------------------------------------------------- reading the reply

  datatype Outcome = Head(head: seq<Byte>, prefetched: seq<Byte>) | TooLarge | ClosedEarly

  /** The outcome when `n` bytes were read in `k` reads without a blank line. */
  function ReadFrom(s: seq<Byte>, n: nat, k: nat, offers: nat -> nat): Outcome
    requires n <= |s|
    decreases |s| - n
  {
    var n' := n + Delivered(|s| - n, BUFFER, offers(k));
    if n' == n then ClosedEarly
    else
      match FindEnd(s[..n'])
      case Some(e) => Head(s[..e], s[e..n'])
      case None => if n' > LIMIT then TooLarge else ReadFrom(s, n', k + 1, offers)
  }

  lemma EndIsPositive(s: seq<Byte>)
    ensures FindEnd(s).Some? ==> 4 <= FindEnd(s).value <= |s|
  {
    if FindEnd(s).Some? {
      assert EndsAt(s, FindEnd(s).value);
    }
  }

  /** One read more: the outcome is decided, or is the outcome from there. */
  lemma ReadOnce(s: seq<Byte>, n: nat, k: nat, offers: nat -> nat, n': nat)
    requires n <= |s| && n' == n + Delivered(|s| - n, BUFFER, offers(k))
    ensures var end := FindEnd(s[..n']);
            ReadFrom(s, n, k, offers) ==
            if n' == n then ClosedEarly
            else if end.Some? then Head(s[..end.value], s[end.value..n'])
            else if n' > LIMIT then TooLarge
            else ReadFrom(s, n', k + 1, offers)
  {
    hide FindEnd, Delivered;
    EndIsPositive(s[..n']);
  }

  method ReadConnectResponse(stream: ByteStream, offers: nat -> nat) returns (r: Outcome)
    requires stream.position == 0
    modifies stream
    ensures r == ReadFrom(stream.bytes, 0, 0, offers)
    ensures stream.position <= |stream.bytes|
    ensures r.Head? ==> r.head + r.prefetched == stream.bytes[..stream.position]
  {
    hide FindEnd, Delivered, ReadFrom;
    var response: seq<Byte> := [];
    ghost var s := stream.bytes;
    var k := 0;
    while true
      invariant stream.position <= |s| && response == s[..stream.position]
      invariant ReadFrom(s, stream.position, k, offers) == ReadFrom(s, 0, 0, offers)
      decreases |s| - stream.position
    {
      ghost var n := stream.position;
      var chunk := stream.Read(BUFFER, offers(k));
      ReadOnce(s, n, k, offers, stream.position);
      if chunk == [] {
        return ClosedEarly;
      }
      response := response + chunk;
      assert response == s[..stream.position];
      k := k + 1;
      var end := FindEnd(response);
      if end.Some? {
        var head, prefetched := response[..end.value], response[end.value..];
        EndIsPositive(response);
        assert head == s[..end.value] && prefetched == s[end.value..stream.position];
        return Head(head, prefetched);
      }
      if |response| > LIMIT {
        return TooLarge;
      }
    }
  }

  /** Whatever the network does, the outcome depends on where the blank line ends, except in a window of 511 positions. */
  lemma {:induction false} OutcomeIs(s: seq<Byte>, n: nat, k: nat, offers: nat -> nat)
    requires n <= |s| && n <= LIMIT && (FindEnd(s).Some? ==> n < FindEnd(s).value)
    ensures var r := ReadFrom(s, n, k, offers);
            match FindEnd(s)
            case None => r == if |s| <= LIMIT then ClosedEarly else TooLarge
            case Some(e) =>
              if e <= LIMIT + 1 then r.Head? && r.head == s[..e] && r.prefetched <= s[e..]
              else if e <= LIMIT + BUFFER then r == TooLarge || (r.Head? && r.head == s[..e] && r.prefetched <= s[e..])
              else r == TooLarge
    decreases |s| - n
  {
    hide FindEnd;
    var n' := n + Delivered(|s| - n, BUFFER, offers(k));
    FindEndInPrefix(s, n');
    if FindEnd(s).Some? {
      assert EndsAt(s, FindEnd(s).value);
      if FindEnd(s).value <= n' {
        var e := FindEnd(s).value;
        assert s[e..n'] == s[e..][..n' - e];
      }
    }
    if n' == n || n' > LIMIT || (FindEnd(s).Some? && FindEnd(s).value <= n') {
    } else {
      OutcomeIs(s, n', k + 1, offers);
    }
  }

  predicate Accepts(s: seq<Byte>, offers: nat -> nat) {
    ReadFrom(s, 0, 0, offers).Head?
  }

  function Burst(last: nat): nat -> nat {
    k => if k < 16 then BUFFER else last
  }

  /** Sixteen full reads reach the limit exactly. */
  lemma {:induction false} FullReads(s: seq<Byte>, k: nat, last: nat)
    requires k <= 16 && |s| > LIMIT && FindEnd(s).Some? && FindEnd(s).value > LIMIT
    ensures BUFFER * k <= |s| && ReadFrom(s, 0, 0, Burst(last)) == ReadFrom(s, BUFFER * k, k, Burst(last))
  {
    hide FindEnd;
    if k == 0 {
    } else {
      FullReads(s, k - 1, last);
      FindEndInPrefix(s, BUFFER * k);
    }
  }

  lemma OneByteOver(s: seq<Byte>)
    requires FindEnd(s).None? || FindEnd(s).value > LIMIT + 1
    ensures !ReadFrom(s, 0, 0, Burst(1)).Head?
  {
    hide FindEnd;
    EndIsPositive(s);
    if FindEnd(s).Some? {
      FullReads(s, 16, 1);
      FindEndInPrefix(s, LIMIT + 1);
    } else {
      OutcomeIs(s, 0, 0, Burst(1));
    }
  }

  /** A reply is accepted under every chunking exactly if its blank line ends within the limit plus one byte. */
  lemma AcceptedUnderEveryChunking(s: seq<Byte>)
    ensures (forall offers :: Accepts(s, offers)) <==> FindEnd(s).Some? && FindEnd(s).value <= 8193
  {
    hide FindEnd, ReadFrom;
    if FindEnd(s).Some? && FindEnd(s).value <= LIMIT + 1 {
      forall offers: nat -> nat ensures Accepts(s, offers) {
        EndIsPositive(s);
        OutcomeIs(s, 0, 0, offers);
      }
    } else {
      OneByteOver(s);
      assert !Accepts(s, Burst(1));
    }
  }

  lemma OneBufferOver(s: seq<Byte>)
    requires FindEnd(s).Some? && FindEnd(s).value <= LIMIT + BUFFER
    ensures ReadFrom(s, 0, 0, Burst(BUFFER)).Head?
  {
    hide FindEnd;
    EndIsPositive(s);
    if FindEnd(s).value <= LIMIT {
      OutcomeIs(s, 0, 0, Burst(BUFFER));
    } else {
      FullReads(s, 16, BUFFER);
      var n' := if |s| < LIMIT + BUFFER then |s| else LIMIT + BUFFER;
      FindEndInPrefix(s, n');
    }
  }

  /** It is accepted under some chunking exactly if the blank line ends within one more buffer. */
  lemma AcceptedUnderSomeChunking(s: seq<Byte>)
    ensures (exists offers :: Accepts(s, offers)) <==> FindEnd(s).Some? && FindEnd(s).value <= 8704
  {
    hide FindEnd, ReadFrom;
    if FindEnd(s).Some? && FindEnd(s).value <= LIMIT + BUFFER {
      OneBufferOver(s);
      assert Accepts(s, Burst(BUFFER));
    } else {
      forall offers: nat -> nat ensures !Accepts(s, offers) {
        EndIsPositive(s);
        OutcomeIs(s, 0, 0, offers);
      }
    }
  }

  // ----------------------------------------------------------------------- the tunnel

  class PrefetchedTunnelBytes {
    const inner: ByteStream
    var prefetched: Option<seq<Byte>>

    ghost predicate Valid()
      reads this, inner
    {
      inner.position <= |inner.bytes| && (prefetched.Some? ==> prefetched.value != [])
    }

    /** What the tunnel has yet to hand out. */
    ghost function Unread(): seq<Byte>
      reads this, inner
      requires Valid()
    {
      (if prefetched.Some? then prefetched.value else []) + inner.bytes[inner.position..]
    }

    constructor (inner: ByteStream, prefetched: seq<Byte>)
      requires inner.position <= |inner.bytes|
      ensures Valid() && this.inner == inner && Unread() == prefetched + inner.bytes[inner.position..]
    {
      this.inner := inner;
      this.prefetched := if prefetched == [] then None else Some(prefetched);
    }

    method Read(capacity: nat, offer: nat) returns (chunk: seq<Byte>)
      requires Valid()
      modifies this, inner
      ensures Valid() && |chunk| <= capacity
      ensures old(Unread()) == chunk + Unread()
      ensures chunk == [] ==> capacity == 0 || Unread() == []
    {
      if prefetched.Some? {
        var bytes := prefetched.value;
        var n := if |bytes| < capacity then |bytes| else capacity;
        chunk := bytes[..n];
        prefetched := if bytes[n..] == [] then None else Some(bytes[n..]);
      } else {
        chunk := inner.Read(capacity, offer);
      }
    }
  }

  /** Reads the tunnel to its end with any nonempty buffers. */
  method Drain(tunnel: PrefetchedTunnelBytes, capacities: nat -> nat, offers: nat -> nat) returns (all: seq<Byte>)
    requires tunnel.Valid() && forall k :: capacities(k) > 0
    modifies tunnel, tunnel.inner
    ensures all == old(tunnel.Unread())
  {
    all := [];
    var k := 0;
    ghost var total, left := tunnel.Unread(), tunnel.Unread();
    while true
      invariant tunnel.Valid() && left == tunnel.Unread() && all + left == total
      decreases |left|
    {
      var chunk := tunnel.Read(capacities(k), offers(k));
      ghost var left' := tunnel.Unread();
      assert all + (chunk + left') == (all + chunk) + left';
      left := left';
      if chunk == [] {
        return;
      }
      all := all + chunk;
      k := k + 1;
    }
  }

  /** The head and what the tunnel then delivers are the proxy's bytes, in order and complete. */
  method HeadThenTunnel(stream: ByteStream, offers: nat -> nat, capacities: nat -> nat, later: nat -> nat)
    returns (r: Outcome, delivered: seq<Byte>)
    requires stream.position == 0 && forall k :: capacities(k) > 0
    modifies stream
    ensures r.Head? ==> r.head + delivered == stream.bytes
    ensures FindEnd(stream.bytes).Some? && FindEnd(stream.bytes).value <= LIMIT + 1 ==>
              r.Head? && r.head == stream.bytes[..FindEnd(stream.bytes).value]
  {
    hide FindEnd, ReadFrom;
    r := ReadConnectResponse(stream, offers);
    delivered := [];
    EndIsPositive(stream.bytes);
    OutcomeIs(stream.bytes, 0, 0, offers);
    if r.Head? {
      var tunnel := new PrefetchedTunnelBytes(stream, r.prefetched);
      assert r.head + tunnel.Unread() == stream.bytes;
      delivered := Drain(tunnel, capacities, later);
    }
  }
}
