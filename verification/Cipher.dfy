/** The keystream derivation of the obfuscation layer, over abstract primitives. */
module Cipher {
  import opened Bytes

  const SEED_LEN: nat := 16
  const KEY_LEN: nat := 32
  const BLOCK_SIZE: nat := 16

  /** The primitives the layer is built from: the hash, the cipher block under a
      key, and the key agreement. Key agreement fails on a degenerate peer key. */
  datatype Primitives = Primitives(
    hash: seq<byte> -> seq<byte>,
    block: (seq<byte>, seq<byte>) -> seq<byte>,
    pub: seq<byte> -> seq<byte>,
    dh: (seq<byte>, seq<byte>) -> Option<seq<byte>>)

  /** The only laws used: fixed output sizes, and both ends agreeing on the shared secret. */
  ghost predicate Lawful(p: Primitives) {
    && (forall x: seq<byte> :: |p.hash(x)| == 32)
    && (forall k: seq<byte>, x: seq<byte> :: |p.block(k, x)| == BLOCK_SIZE)
    && (forall a: seq<byte> :: |p.pub(a)| == KEY_LEN)
    && (forall a: seq<byte>, b: seq<byte> :: p.dh(a, p.pub(b)) == p.dh(b, p.pub(a)))
  }

  function Zeros(n: nat): (s: seq<byte>)
    ensures |s| == n
  {
    seq(n, _ => 0)
  }

  type Suite = p: Primitives | Lawful(p)
    ghost witness Primitives(_ => Zeros(32), (_, _) => Zeros(BLOCK_SIZE), _ => Zeros(KEY_LEN), (_, _) => None)

  /** A counter-mode keystream: a cipher key and an initial counter block. */
  datatype Keystream = Keystream(key: seq<byte>, iv: seq<byte>)

  /** The counter block number `n`: the initial block plus `n`, wrapping at its width
      (the standard incrementing function of NIST SP 800-38A, appendix B.1). */
  function CounterBlock(iv: seq<byte>, n: nat): seq<byte> {
    ToBigEndian((FromBigEndian(iv) + n) % Pow256(|iv|), |iv|)
  }

  /** The keystream byte at a position (section 6.5 of NIST SP 800-38A). */
  function KeyByte(p: Suite, ks: Keystream, i: nat): byte {
    p.block(ks.key, CounterBlock(ks.iv, i / BLOCK_SIZE))[i % BLOCK_SIZE]
  }

  /** `data` masked with the keystream from position `pos` on. */
  function Mask(p: Suite, ks: Keystream, pos: nat, data: seq<byte>): (r: seq<byte>)
    ensures |r| == |data|
    decreases |data|
  {
    if data == [] then []
    else [Xor(data[0], KeyByte(p, ks, pos))] + Mask(p, ks, pos + 1, data[1..])
  }

  /** Masking at the same position is its own inverse. */
  lemma {:induction false} MaskTwice(p: Suite, ks: Keystream, pos: nat, data: seq<byte>)
    ensures Mask(p, ks, pos, Mask(p, ks, pos, data)) == data
    decreases |data|
  {
    if data != [] {
      var masked := Mask(p, ks, pos, data);
      MaskTwice(p, ks, pos + 1, data[1..]);
      XorTwice(data[0], KeyByte(p, ks, pos));
      assert masked[1..] == Mask(p, ks, pos + 1, data[1..]);
    }
  }

  /** Masking in pieces, each from where the last stopped, is masking the whole. */
  lemma {:induction false} MaskConcat(p: Suite, ks: Keystream, pos: nat, a: seq<byte>, b: seq<byte>)
    ensures Mask(p, ks, pos, a + b) == Mask(p, ks, pos, a) + Mask(p, ks, pos + |a|, b)
    decreases |a|
  {
    hide Xor, KeyByte;
    if a == [] {
      assert a + b == b;
    } else {
      MaskConcat(p, ks, pos + 1, a[1..], b);
      assert (a + b)[1..] == a[1..] + b;
    }
  }

  lemma MaskNothing(p: Suite, ks: Keystream, pos: nat)
    ensures Mask(p, ks, pos, []) == []
  {
  }

  lemma MaskOneMore(p: Suite, ks: Keystream, pos: nat, data: seq<byte>, i: nat)
    requires i < |data|
    ensures Mask(p, ks, pos, data[..i + 1]) == Mask(p, ks, pos, data[..i]) + [Xor(data[i], KeyByte(p, ks, pos + i))]
  {
    hide Xor, KeyByte;
    MaskConcat(p, ks, pos, data[..i], [data[i]]);
    assert data[..i + 1] == data[..i] + [data[i]];
    MaskNothing(p, ks, pos + i + 1);
    assert [data[i]][1..] == [];
  }

  lemma {:induction false} MaskAt(p: Suite, ks: Keystream, pos: nat, data: seq<byte>, j: nat)
    requires j < |data|
    ensures Mask(p, ks, pos, data)[j] == Xor(data[j], KeyByte(p, ks, pos + j))
    decreases |data|
  {
    hide Xor, KeyByte;
    if j > 0 {
      MaskAt(p, ks, pos + 1, data[1..], j - 1);
    }
  }

  /** A 16-byte counter block that stands `n` after the initial one, wrapping at 128 bits. */
  ghost predicate CounterAt(c: seq<byte>, iv: seq<byte>, n: nat) {
    |c| == BLOCK_SIZE && FromBigEndian(c) == (FromBigEndian(iv) + n) % Pow256(BLOCK_SIZE)
  }

  lemma CounterBlockAt(iv: seq<byte>, n: nat)
    requires |iv| == BLOCK_SIZE
    ensures CounterAt(CounterBlock(iv, n), iv, n)
  {
    BigEndianRoundTrip((FromBigEndian(iv) + n) % Pow256(BLOCK_SIZE), BLOCK_SIZE);
  }

  /** The keystream is the cipher blocks of consecutive counters, one after the other: what masking
      sixteen zeros from the n-th block on gives is the block of the counter that stands n later. */
  lemma KeystreamBlock(p: Suite, ks: Keystream, n: nat, c: seq<byte>)
    requires |ks.iv| == BLOCK_SIZE && CounterAt(c, ks.iv, n)
    ensures Mask(p, ks, BLOCK_SIZE * n, Zeros(BLOCK_SIZE)) == p.block(ks.key, c)
  {
    hide Mask, Xor, CounterBlock;
    CounterBlockAt(ks.iv, n);
    BigEndianInjective(c, CounterBlock(ks.iv, n));
    var out := Mask(p, ks, BLOCK_SIZE * n, Zeros(BLOCK_SIZE));
    forall j | 0 <= j < BLOCK_SIZE ensures out[j] == p.block(ks.key, c)[j] {
      MaskAt(p, ks, BLOCK_SIZE * n, Zeros(BLOCK_SIZE), j);
      XorZero(KeyByte(p, ks, BLOCK_SIZE * n + j));
      assert (BLOCK_SIZE * n + j) / BLOCK_SIZE == n && (BLOCK_SIZE * n + j) % BLOCK_SIZE == j;
    }
  }

  lemma NextMultiple(q: int, r: int, m: nat)
    requires q < r
    ensures q * m + m <= r * m
  {
    assert r * m == q * m + m + (r - q - 1) * m;
  }

  lemma QuotientsAgree(q: int, r: int, x: nat, m: nat)
    requires m > 0 && q * m + x <= r * m + x < q * m + x + m
    ensures q == r
  {
    if q < r {
      NextMultiple(q, r, m);
    } else if r < q {
      NextMultiple(r, q, m);
    }
  }

  lemma SameResidue(a: nat, b: nat, m: nat)
    requires m > 0 && a % m == b % m && a <= b < a + m
    ensures a == b
  {
    var q, r, x := a / m, b / m, a % m;
    assert a == q * m + x;
    assert b == r * m + x;
    QuotientsAgree(q, r, x, m);
  }

  /** Different blocks of a stream use different counters, up to 2 to the 128 of them. */
  lemma CountersDiffer(c: seq<byte>, d: seq<byte>, iv: seq<byte>, n: nat, m: nat)
    requires CounterAt(c, iv, n) && CounterAt(d, iv, m) && n < m < n + Pow256(BLOCK_SIZE)
    ensures c != d
  {
    hide Pow256, FromBigEndian;
    if c == d {
      SameResidue(FromBigEndian(iv) + n, FromBigEndian(iv) + m, Pow256(BLOCK_SIZE));
    }
  }

  /** Unmasking any received prefix of masked data gives the same prefix of the plaintext. */
  lemma UnmaskPrefix(p: Suite, ks: Keystream, data: seq<byte>, received: seq<byte>)
    requires received <= Mask(p, ks, 0, data)
    ensures Mask(p, ks, 0, received) == data[..|received|]
  {
    var head := data[..|received|];
    MaskConcat(p, ks, 0, head, data[|received|..]);
    assert data == head + data[|received|..];
    assert received == Mask(p, ks, 0, head);
    MaskTwice(p, ks, 0, head);
  }

  datatype Role = Client | Server

  /** Both directions' keystreams as one end sees them. */
  datatype Streams = Streams(r: Keystream, w: Keystream)

  const KEY_LABEL: seq<byte> := [0x6B, 0x65, 0x79]
  const UP_LABEL: seq<byte> := [0x75, 0x70]
  const DOWN_LABEL: seq<byte> := [0x64, 0x6F, 0x77, 0x6E]

  /** The keystream of one direction, from the hashed secret and the direction's label. */
  function DirectionStream(p: Suite, keymat: seq<byte>, dir: seq<byte>): Keystream {
    Keystream(p.hash(keymat + KEY_LABEL), p.hash(keymat + dir)[..BLOCK_SIZE])
  }

  /** The streams one end installs: the server reads "up" and writes "down", the client mirrors it. */
  function StreamsFor(p: Suite, role: Role, secret: seq<byte>): Streams {
    var keymat := p.hash(secret);
    var up := DirectionStream(p, keymat, UP_LABEL);
    var down := DirectionStream(p, keymat, DOWN_LABEL);
    match role
    case Server => Streams(up, down)
    case Client => Streams(down, up)
  }

  function PskSecret(p: Suite, psk: seq<byte>, seed: seq<byte>): seq<byte> {
    p.hash(psk) + seed
  }

  /** How the two ends come by a secret: a pre-shared passphrase, or a fresh key agreement. */
  datatype Mode = Psk(psk: seq<byte>) | Negotiated

  datatype Error = Error(code: nat)

  /** How many preamble bytes an end reads before its streams exist. */
  function Need(mode: Mode, role: Role): nat {
    match mode
    case Negotiated => KEY_LEN
    case Psk(_) => if role == Server then SEED_LEN else 0
  }

  /** The bytes an end sends before any payload, from its random choice. */
  function Announce(p: Suite, mode: Mode, role: Role, own: Option<seq<byte>>): seq<byte> {
    match own
    case None => []
    case Some(x) =>
      if mode.Negotiated? then p.pub(x) else if role == Client then x else []
  }

  /** The shared secret an end computes from its own choice and the preamble it read. */
  function SharedSecret(p: Suite, mode: Mode, role: Role, own: Option<seq<byte>>, peer: seq<byte>): Option<seq<byte>> {
    match mode
    case Psk(k) =>
      if role == Server then Some(PskSecret(p, k, peer))
      else if own.Some? then Some(PskSecret(p, k, own.value)) else None
    case Negotiated => if own.Some? then p.dh(own.value, peer) else None
  }

  /** A random draw that fits: a 16-byte seed for the client, any private key when negotiating. */
  predicate Drawn(mode: Mode, role: Role, random: seq<byte>) {
    mode.Psk? && role == Client ==> |random| == SEED_LEN
  }
}
