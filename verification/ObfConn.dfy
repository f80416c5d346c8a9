/** One end of the obfuscated connection as the object it is in the source: streams and
    the handshake outcome are fields, and payload is masked in place. Sequential calls only;
    the races between calls are the subject of the Tunnel module. */
module ObfConnection {
  import opened Bytes
  import opened Cipher
  import opened Transport

  /** A cipher stream that remembers its position. */
  class CtrStream {
    const p: Suite
    const ks: Keystream
    var pos: nat

    constructor (p: Suite, ks: Keystream)
      ensures this.p == p && this.ks == ks && pos == 0
    {
      this.p, this.ks, pos := p, ks, 0;
    }

    /** Masks the first `n` bytes of `buf` in place. */
    method XorKeyStream(buf: array<byte>, n: nat)
      requires n <= buf.Length
      modifies this`pos, buf
      ensures pos == old(pos) + n
      ensures buf[..] == Mask(p, ks, old(pos), old(buf[..n])) + old(buf[n..])
    {
      hide Mask, Xor, KeyByte;
      ghost var before := buf[..];
      MaskNothing(p, ks, pos);
      var i := 0;
      while i < n
        invariant i <= n && pos == old(pos) + i
        invariant buf[..i] == Mask(p, ks, old(pos), before[..i])
        invariant buf[i..] == before[i..]
      {
        MaskOneMore(p, ks, old(pos), before, i);
        assert buf[i] == buf[i..][0] == before[i..][0] == before[i];
        buf[i] := Xor(buf[i], KeyByte(p, ks, pos));
        assert buf[..i + 1] == buf[..i] + [buf[i]];
        pos := pos + 1;
        i := i + 1;
      }
      assert buf[..] == buf[..n] + buf[n..];
    }
  }

  class ObfConn {
    const p: Suite
    const conn: Conn
    const server: bool
    const psk: seq<byte>
    var r: CtrStream?
    var w: CtrStream?
    var once: bool
    var hsErr: Option<Error>

    constructor (p: Suite, conn: Conn, server: bool, psk: seq<byte>)
      ensures Valid() && !once
      ensures this.p == p && this.conn == conn && this.server == server && this.psk == psk
    {
      this.p, this.conn, this.server, this.psk := p, conn, server, psk;
      r, w, once, hsErr := null, null, false, None;
    }

    function MyRole(): Role { if server then Server else Client }

    function MyMode(): Mode { if psk != [] then Psk(psk) else Negotiated }

    ghost predicate Valid()
      reads this
    {
      once && hsErr.None? ==> r != null && w != null && r != w && r.p == p && w.p == p
    }

    ghost predicate Established()
      reads this
    {
      once && hsErr.None? && r != null && w != null
    }

    /** What a successful handshake leaves behind, from the random draw and the bytes that came in. */
    ghost predicate Agreed(random: Option<seq<byte>>, incoming: seq<byte>)
      reads this, r, w
    {
      var need := Need(MyMode(), MyRole());
      && Established() && r.pos == 0 && w.pos == 0
      && need <= |incoming|
      && var secret := SharedSecret(p, MyMode(), MyRole(), random, incoming[..need]);
      && secret.Some?
      && Streams(r.ks, w.ks) == StreamsFor(p, MyRole(), secret.value)
    }

    /** Runs the handshake on the first call and reports its one outcome ever after. */
    method Handshake(random: Option<seq<byte>>) returns (err: Option<Error>)
      requires Valid()
      requires random.Some? ==> Drawn(MyMode(), MyRole(), random.value)
      modifies this, conn
      ensures Valid() && once && err == hsErr
      ensures old(once) ==> err == old(hsErr) && r == old(r) && w == old(w) && unchanged(conn)
      ensures !old(once) && err.None? ==>
        && Agreed(random, old(conn.incoming)) && fresh(r) && fresh(w)
        && conn.incoming == old(conn.incoming)[Need(MyMode(), MyRole())..]
        && conn.sent == old(conn.sent) + Announce(p, MyMode(), MyRole(), random)
      ensures !old(once) && err.Some? ==>
        old(conn.sent) <= conn.sent <= old(conn.sent) + Announce(p, MyMode(), MyRole(), random)
    {
      if !once {
        hsErr := DoHandshake(random);
        once := true;
      }
      err := hsErr;
    }

    method DoHandshake(random: Option<seq<byte>>) returns (err: Option<Error>)
      requires !once && (random.Some? ==> Drawn(MyMode(), MyRole(), random.value))
      modifies this`r, this`w, conn
      ensures err.None? ==>
        && r != null && w != null && r != w && fresh(r) && fresh(w) && r.p == p && w.p == p
        && r.pos == 0 && w.pos == 0
        && Need(MyMode(), MyRole()) <= |old(conn.incoming)|
        && SharedSecret(p, MyMode(), MyRole(), random, old(conn.incoming)[..Need(MyMode(), MyRole())]).Some?
        && Streams(r.ks, w.ks) == StreamsFor(p, MyRole(),
             SharedSecret(p, MyMode(), MyRole(), random, old(conn.incoming)[..Need(MyMode(), MyRole())]).value)
        && conn.incoming == old(conn.incoming)[Need(MyMode(), MyRole())..]
        && conn.sent == old(conn.sent) + Announce(p, MyMode(), MyRole(), random)
      ensures err.Some? ==>
        old(conn.sent) <= conn.sent <= old(conn.sent) + Announce(p, MyMode(), MyRole(), random)
    {
      var secret: seq<byte>;
      if psk != [] {
        secret, err := HandshakePsk(random);
      } else {
        secret, err := HandshakeEcdh(random);
      }
      if err.Some? {
        return;
      }
      var streams := StreamsFor(p, MyRole(), secret);
      r := new CtrStream(p, streams.r);
      w := new CtrStream(p, streams.w);
    }

    method HandshakePsk(random: Option<seq<byte>>) returns (secret: seq<byte>, err: Option<Error>)
      requires psk != [] && (random.Some? ==> Drawn(MyMode(), MyRole(), random.value))
      modifies conn
      ensures err.None? ==>
        && Need(MyMode(), MyRole()) <= |old(conn.incoming)|
        && SharedSecret(p, MyMode(), MyRole(), random, old(conn.incoming)[..Need(MyMode(), MyRole())]) == Some(secret)
        && conn.incoming == old(conn.incoming)[Need(MyMode(), MyRole())..]
        && conn.sent == old(conn.sent) + Announce(p, MyMode(), MyRole(), random)
      ensures err.Some? ==>
        old(conn.sent) <= conn.sent <= old(conn.sent) + Announce(p, MyMode(), MyRole(), random)
    {
      secret := [];
      if server {
        var seed := new byte[SEED_LEN];
        err := ReadFull(conn, seed);
        secret := PskSecret(p, psk, seed[..]);
      } else if random.None? {
        err := Some(Error(2));
      } else {
        var n;
        n, err := conn.Write(random.value);
        assert random.value == random.value[..n] + random.value[n..];
        secret := PskSecret(p, psk, random.value);
      }
    }

    /** The key is sent while the peer's is read; seen from this end alone the order does not matter. */
    method HandshakeEcdh(random: Option<seq<byte>>) returns (secret: seq<byte>, err: Option<Error>)
      requires psk == []
      modifies conn
      ensures err.None? ==>
        && KEY_LEN <= |old(conn.incoming)|
        && SharedSecret(p, Negotiated, MyRole(), random, old(conn.incoming)[..KEY_LEN]) == Some(secret)
        && conn.incoming == old(conn.incoming)[KEY_LEN..]
        && conn.sent == old(conn.sent) + Announce(p, Negotiated, MyRole(), random)
      ensures err.Some? ==>
        old(conn.sent) <= conn.sent <= old(conn.sent) + Announce(p, Negotiated, MyRole(), random)
    {
      secret := [];
      if random.None? {
        return [], Some(Error(2));
      }
      var pub := p.pub(random.value);
      var n, werr := conn.Write(pub);
      assert pub == pub[..n] + pub[n..];
      var peer := new byte[KEY_LEN];
      err := ReadFull(conn, peer);
      if err.Some? {
        return;
      }
      if werr.Some? {
        return [], werr;
      }
      var shared := p.dh(random.value, peer[..]);
      if shared.None? {
        return [], Some(Error(3));
      }
      secret := shared.value;
    }

    /** The incoming bytes past the preamble this end has still to read. */
    ghost function Payload(): seq<byte>
      reads this, conn
    {
      var skip := if once then 0 else Need(MyMode(), MyRole());
      if skip <= |conn.incoming| then conn.incoming[skip..] else []
    }

    /** Reads some payload into `buf` and unmasks it in place. */
    method ReadPayload(buf: array<byte>) returns (n: nat, err: Option<Error>)
      requires Valid() && Established()
      modifies conn`incoming, buf, r`pos
      ensures n <= buf.Length && n <= |old(conn.incoming)|
      ensures r.pos == old(r.pos) + n
      ensures buf[..] == Mask(p, r.ks, old(r.pos), old(conn.incoming)[..n]) + old(buf[n..])
      ensures conn.incoming == old(conn.incoming)[n..]
    {
      ghost var arrived, was := conn.incoming, buf[..];
      n, err := conn.Read(buf, 0, buf.Length);
      assert buf[..n] == arrived[..n] && buf[n..] == was[n..];
      if n > 0 {
        r.XorKeyStream(buf, n);
      }
    }

    /** Masks a copy of `data` and hands it to the transport. */
    method WritePayload(data: array<byte>) returns (n: nat, err: Option<Error>)
      requires Valid() && Established()
      modifies conn`sent, conn`broken, w`pos
      ensures n <= data.Length && (err.None? ==> n == data.Length)
      ensures w.pos == old(w.pos) + data.Length
      ensures conn.sent == old(conn.sent) + Mask(p, w.ks, old(w.pos), data[..])[..n]
    {
      var buf := new byte[data.Length];
      forall i | 0 <= i < data.Length {
        buf[i] := data[i];
      }
      assert buf[..data.Length] == data[..] && buf[data.Length..] == [];
      w.XorKeyStream(buf, data.Length);
      n, err := conn.Write(buf[..]);
    }

    /** The first call shakes hands; a failed handshake reads nothing, on this and every later call. */
    method Read(buf: array<byte>, random: Option<seq<byte>>) returns (n: nat, err: Option<Error>)
      requires Valid()
      requires random.Some? ==> Drawn(MyMode(), MyRole(), random.value)
      modifies this, conn, buf, r
      ensures Valid() && once
      ensures hsErr.Some? ==> n == 0 && err == hsErr && buf[..] == old(buf[..])
      ensures old(once) ==> hsErr == old(hsErr) && r == old(r) && w == old(w) && conn.sent == old(conn.sent)
      ensures old(once) && hsErr.Some? ==> conn.incoming == old(conn.incoming)
      ensures !old(once) && hsErr.None? ==> conn.sent == old(conn.sent) + Announce(p, MyMode(), MyRole(), random)
      ensures hsErr.None? ==>
        && n <= buf.Length && n <= |old(Payload())|
        && r.pos == (if old(once) then old(if r == null then 0 else r.pos) else 0) + n
        && buf[..] == Mask(p, r.ks, r.pos - n, old(Payload())[..n]) + old(buf[n..])
        && conn.incoming == old(Payload())[n..]
    {
      hide Mask, Announce, SharedSecret, StreamsFor, Drawn;
      err := Handshake(random);
      n := 0;
      if err.None? {
        n, err := ReadPayload(buf);
      }
    }

    /** The first call shakes hands; a failed handshake sends no payload, on this and every later call. */
    method Write(data: array<byte>, random: Option<seq<byte>>) returns (n: nat, err: Option<Error>)
      requires Valid()
      requires random.Some? ==> Drawn(MyMode(), MyRole(), random.value)
      modifies this, conn, w
      ensures Valid() && once && n <= data.Length
      ensures hsErr.Some? ==> n == 0 && err == hsErr
      ensures old(once) ==> hsErr == old(hsErr) && r == old(r) && w == old(w)
      ensures old(once) ==> conn.incoming == old(conn.incoming)
      ensures old(once) && hsErr.Some? ==> conn.sent == old(conn.sent)
      ensures hsErr.None? ==>
        && w.pos == (if old(once) then old(if w == null then 0 else w.pos) else 0) + data.Length
        && conn.sent == old(conn.sent)
             + (if old(once) then [] else Announce(p, MyMode(), MyRole(), random))
             + Mask(p, w.ks, w.pos - data.Length, data[..])[..n]
        && (err.None? ==> n == data.Length)
    {
      hide Mask, Announce, SharedSecret, StreamsFor, Drawn;
      err := Handshake(random);
      n := 0;
      if err.None? {
        n, err := WritePayload(data);
      }
    }
  }
}
