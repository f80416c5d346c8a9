/** A byte transport as one end sees it, and the read helper the protocols use on it. */
module Transport {
  import opened Bytes
  import opened Cipher

  /** `incoming` is what the peer's side has yet to deliver to this end, `sent` what this
      end's writes have put on the wire. Reads return pieces of any size; they may fail at any
      moment, or only at the end of the stream when the transport is reliable. */
  class Conn {
    const reliable: bool
    var incoming: seq<byte>
    var sent: seq<byte>
    var broken: bool

    constructor (incoming: seq<byte>, reliable: bool)
      ensures this.incoming == incoming && sent == [] && !broken && this.reliable == reliable
    {
      this.incoming := incoming;
      this.reliable := reliable;
      sent := [];
      broken := false;
    }

    /** Fills some of `p[lo..hi]`; nothing read from a non-empty request is an error. */
    method Read(p: array<byte>, lo: nat, hi: nat) returns (n: nat, err: Option<Error>)
      requires lo <= hi <= p.Length
      modifies this`incoming, p
      ensures lo + n <= hi && n <= |old(incoming)|
      ensures incoming == old(incoming)[n..]
      ensures p[..] == old(p[..lo]) + old(incoming)[..n] + old(p[lo + n..])
      ensures n == 0 && lo < hi ==> err.Some?
      ensures reliable && lo < hi && old(incoming) != [] ==> n > 0 && err.None?
    {
      n, err := *, *;
      if n > hi - lo || n > |incoming| || (n == 0 && (err.None? || reliable)) {
        n := if hi - lo <= |incoming| then hi - lo else |incoming|;
      }
      if reliable && n > 0 {
        err := None;
      }
      if n == 0 && err.None? {
        err := Some(Error(0));
      }
      forall i | 0 <= i < n {
        p[lo + i] := incoming[i];
      }
      incoming := incoming[n..];
    }

    /** Appends `data` to the wire, or only part of it when the transport fails. */
    method Write(data: seq<byte>) returns (n: nat, err: Option<Error>)
      modifies this`sent, this`broken
      ensures n <= |data| && sent == old(sent) + data[..n]
      ensures err.None? ==> n == |data| && !old(broken) && !broken
      ensures err.Some? ==> broken
      ensures old(broken) ==> n == 0 && err.Some?
    {
      n, err := *, *;
      if broken || n >= |data| {
        n := if broken then 0 else |data|;
      }
      if (broken || n < |data|) && err.None? {
        err := Some(Error(1));
      }
      broken := err.Some?;
      sent := sent + data[..n];
    }
  }

  /** Reads until the buffer is full or a read fails; a failure on the last piece is ignored. */
  method ReadFull(c: Conn, p: array<byte>) returns (err: Option<Error>)
    modifies c`incoming, p
    ensures err.None? ==> p.Length <= |old(c.incoming)| && p[..] == old(c.incoming)[..p.Length]
                          && c.incoming == old(c.incoming)[p.Length..]
    ensures c.reliable && p.Length <= |old(c.incoming)| ==> err.None?
    ensures err.Some? ==> exists k: nat :: k < p.Length && k <= |old(c.incoming)| && c.incoming == old(c.incoming)[k..]
  {
    ghost var start := c.incoming;
    var n := 0;
    err := None;
    while n < p.Length && err.None?
      invariant n <= p.Length && n <= |start|
      invariant c.incoming == start[n..]
      invariant p[..n] == start[..n]
      invariant c.reliable && p.Length <= |start| ==> err.None?
      decreases p.Length - n, err.None?
    {
      var k;
      k, err := c.Read(p, n, p.Length);
      assert p[..n + k] == start[..n + k];
      n := n + k;
    }
    if n == p.Length {
      assert p[..] == p[..n];
      err := None;
    }
  }
}
