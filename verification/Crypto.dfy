/** The primitives the server takes from libraries, as functions of which only the published
    laws are used, and the `nonce + ciphertext` envelope built on them (src/crypto). */
module Crypto {
  import opened Wrappers
  import opened Hex
  import opened Bits

  const NONCE_LEN := 12
  const KEY_LEN := 32

  /** `seal` and `open` are AES-256-GCM on key, nonce and text; `dh` is X25519 on scalar and point;
      `hash` is the hex text of SHA-256; `byteLen` is a text's length in UTF-8. */
  datatype Suite = Suite(
    seal: (Bytes, Bytes, Bytes) -> Bytes,
    open: (Bytes, Bytes, Bytes) -> Option<Bytes>,
    dh: (Bytes, Bytes) -> Bytes,
    hash: string -> string,
    utf8: Bytes -> Option<string>,
    byteLen: string -> nat
  )

  /** The server's two 32-byte secrets beside the primitives it runs on. */
  datatype Config = Config(suite: Suite, secret: Bytes, software: Bytes)

  const BASE: Bytes := [9] + seq(31, i => 0)

  ghost predicate OpensWhatWasSealed(s: Suite) {
    forall k, n, m :: |k| == KEY_LEN && |n| == NONCE_LEN ==> s.open(k, n, s.seal(k, n, m)) == Some(m)
  }

  ghost predicate OpensNothingElse(s: Suite) {
    forall k, n, c :: s.open(k, n, c).Some? ==> c == s.seal(k, n, s.open(k, n, c).value)
  }

  /** Section 6.1 of RFC 7748: both parties compute the same secret. */
  ghost predicate DhCommutes(s: Suite) {
    && (forall a, p :: |s.dh(a, p)| == KEY_LEN)
    && (forall a, b {:trigger s.dh(a, s.dh(b, BASE))} ::
          |a| == KEY_LEN && |b| == KEY_LEN ==> s.dh(a, s.dh(b, BASE)) == s.dh(b, s.dh(a, BASE)))
  }

  ghost predicate HashNonEmpty(s: Suite) {
    forall t :: s.hash(t) != ""
  }

  ghost predicate Lawful(s: Suite) {
    OpensWhatWasSealed(s) && OpensNothingElse(s) && DhCommutes(s) && HashNonEmpty(s)
  }

  ghost predicate ValidConfig(c: Config) {
    Lawful(c.suite) && |c.secret| == KEY_LEN && |c.software| == KEY_LEN
  }

  // ----- envelopes -----

  function Encrypt(s: Suite, key: Bytes, nonce: Bytes, data: Bytes): Bytes {
    nonce + s.seal(key, nonce, data)
  }

  function Decrypt(s: Suite, key: Bytes, data: Bytes): Result<Bytes, AppError> {
    if |data| < NONCE_LEN then Failure(AppError.Crypto)
    else s.open(key, data[..NONCE_LEN], data[NONCE_LEN..]).ToResult(AppError.Crypto)
  }

  function DeriveShared(s: Suite, private: Bytes, public: Bytes): Result<Bytes, AppError> {
    if |private| != KEY_LEN || |public| != KEY_LEN then Failure(AppError.Crypto)
    else Success(s.dh(private, public))
  }

  lemma EnvelopeOpens(s: Suite, key: Bytes, nonce: Bytes, data: Bytes)
    requires Lawful(s) && |key| == KEY_LEN && |nonce| == NONCE_LEN
    ensures Decrypt(s, key, Encrypt(s, key, nonce, data)) == Success(data)
  {
    var e := Encrypt(s, key, nonce, data);
    assert e[..NONCE_LEN] == nonce && e[NONCE_LEN..] == s.seal(key, nonce, data);
  }

  /** An envelope opens to exactly the text it was sealed from, under its own first 12 bytes. */
  lemma EnvelopeIsSealed(s: Suite, key: Bytes, data: Bytes, text: Bytes)
    requires Lawful(s) && |key| == KEY_LEN
    ensures Decrypt(s, key, data) == Success(text) <==>
            |data| >= 12 && data == Encrypt(s, key, data[..12], text)
    ensures Decrypt(s, key, data).Failure? ==> Decrypt(s, key, data) == Failure(AppError.Crypto)
  {
    if |data| >= NONCE_LEN {
      assert data == data[..NONCE_LEN] + data[NONCE_LEN..];
      if data == Encrypt(s, key, data[..NONCE_LEN], text) {
        EnvelopeOpens(s, key, data[..NONCE_LEN], text);
      }
    }
  }

  /** The key the server derives from the client's point is the key the client derives from the
      server's point. */
  lemma KeysAgree(s: Suite, server: Bytes, client: Bytes)
    requires Lawful(s) && |server| == KEY_LEN && |client| == KEY_LEN
    ensures DeriveShared(s, server, s.dh(client, BASE)) == DeriveShared(s, client, s.dh(server, BASE))
    ensures DeriveShared(s, server, s.dh(client, BASE)).Success?
    ensures |DeriveShared(s, server, s.dh(client, BASE)).value| == KEY_LEN
  {
    assert s.dh(server, s.dh(client, BASE)) == s.dh(client, s.dh(server, BASE));
  }

  /** A shared key is derived exactly from two keys of 32 bytes. */
  lemma KeyLengthsAreExact(s: Suite, private: Bytes, public: Bytes)
    ensures DeriveShared(s, private, public) ==
            if |private| == 32 && |public| == 32 then Success(s.dh(private, public)) else Failure(AppError.Crypto)
  {
  }

  // ----- the laws can be met -----

  ghost function At(b: Bytes, i: int): byte {
    if 0 <= i < |b| then b[i] else 0
  }

  ghost function ToyDh(a: Bytes, p: Bytes): Bytes {
    seq(KEY_LEN, i => (At(a, i) + At(p, i)) % 256)
  }

  ghost function ToySuite(): Suite {
    Suite(
      (k: Bytes, n: Bytes, m: Bytes) => k + n + m,
      (k: Bytes, n: Bytes, c: Bytes) => if k + n <= c then Some(c[|k + n|..]) else None,
      (a: Bytes, p: Bytes) => ToyDh(a, p),
      (t: string) => "#" + t,
      (b: Bytes) => Some(seq(|b|, i requires 0 <= i < |b| => b[i] as char)),
      (t: string) => |t|
    )
  }

  lemma LawsAreConsistent()
    ensures Lawful(ToySuite())
  {
    var s := ToySuite();
    forall k: Bytes, n: Bytes, m: Bytes ensures s.open(k, n, s.seal(k, n, m)) == Some(m) {
      assert (k + n + m)[|k + n|..] == m;
    }
    forall k: Bytes, n: Bytes, c: Bytes | s.open(k, n, c).Some?
      ensures c == s.seal(k, n, s.open(k, n, c).value)
    {
      assert c == c[..|k + n|] + c[|k + n|..];
    }
    forall a: Bytes, b: Bytes | |a| == KEY_LEN && |b| == KEY_LEN
      ensures s.dh(a, s.dh(b, BASE)) == s.dh(b, s.dh(a, BASE))
    {
      ToyDhCommutes(a, b);
    }
  }

  lemma ToyDhCommutes(a: Bytes, b: Bytes)
    ensures ToyDh(a, ToyDh(b, BASE)) == ToyDh(b, ToyDh(a, BASE))
  {
    forall i | 0 <= i < KEY_LEN
      ensures ToyDh(a, ToyDh(b, BASE))[i] == ToyDh(b, ToyDh(a, BASE))[i]
    {
      var x, y, z := At(a, i), At(b, i), At(BASE, i);
      AddModCommutes(x, y, z);
    }
  }

  lemma AddModCommutes(x: int, y: int, z: int)
    ensures (x + (y + z) % 256) % 256 == (y + (x + z) % 256) % 256
  {
  }

  // ----- X25519 private keys -----

  /** A little-endian byte string as a number. */
  function LittleEndian(b: Bytes): nat {
    if b == [] then 0 else b[0] + 256 * LittleEndian(b[1..])
  }

  function Clamped(b: Bytes): (r: Bytes)
    requires |b| == KEY_LEN
    ensures |r| == KEY_LEN
  {
    TopByte(b[31]);
    b[0 := And(b[0], 248)][31 := Or(And(b[31], 127), 64)]
  }

  lemma TopByte(x: nat)
    ensures Or(And(x, 127), 64) == 64 + x % 64
  {
    KeepLowBits(x);
    SetBitSix(And(x, 127), x);
  }

  lemma SmallPowers()
    ensures Pow2(3) == 8 && Pow2(6) == 64 && Pow2(7) == 128 && Pow2(8) == 256
  {
  }

  lemma KeepLowBits(x: nat)
    ensures And(x, 127) == x % 128
  {
    var p := Pow2(7);
    SmallPowers();
    AndLowMask(x, 7);
    assert p - 1 == 127;
  }

  lemma DropLowBits(x: nat)
    requires x < 256
    ensures And(x, 248) == x - x % 8
  {
    var p, q := Pow2(8), Pow2(3);
    SmallPowers();
    AndHighMask(x, 8, 3);
    assert p - q == 248;
  }

  lemma SetBitSix(low: nat, x: nat)
    requires low == x % 128
    ensures Or(low, 64) == 64 + x % 64
  {
    var p := Pow2(6);
    SmallPowers();
    OrBit(low, 6);
    assert low / p == low / 64;
    BitSix(low, x);
  }

  lemma BitSix(low: nat, x: nat)
    requires low == x % 128
    ensures 64 + x % 64 == if (low / 64) % 2 == 1 then low else low + 64
  {
  }

  lemma ClampedBytes(b: Bytes)
    requires |b| == KEY_LEN
    ensures SameButEnds(b, Clamped(b))
  {
    DropLowBits(b[0]);
    TopByte(b[31]);
  }

  /** What the clamp does, byte by byte. */
  predicate SameButEnds(b: Bytes, r: Bytes) {
    && |b| == |r| == KEY_LEN
    && r[0] == b[0] - b[0] % 8
    && r[1..31] == b[1..31]
    && r[31] == 64 + b[31] % 64
  }

  /** `generate_identity_keys` edits the random bytes in place. */
  method ClampInPlace(key: array<byte>)
    requires key.Length == KEY_LEN
    modifies key
    ensures key[..] == Clamped(old(key[..]))
  {
    TopByte(key[31]);
    key[0] := And(key[0], 248);
    key[31] := And(key[31], 127);
    key[31] := Or(key[31], 64);
  }

  /** In arithmetic (the key has |b| = 32 bytes): bits 0..2 are cleared, bit 254 is set and bit
      255 cleared, and no other bit moves. */
  lemma ClampArithmetic(b: Bytes)
    requires |b| == KEY_LEN
    ensures var top := Pow2(8 * |b| - 2);
            LittleEndian(Clamped(b)) == top + LittleEndian(b) % top - LittleEndian(b) % 8
  {
    ClampedBytes(b);
    EndsArithmetic(b, Clamped(b), 8 * |b| - 8);
  }

  lemma EndsArithmetic(b: Bytes, r: Bytes, k: nat)
    requires SameButEnds(b, r) && k == 8 * |b| - 8
    ensures LittleEndian(r) == Pow2(k + 6) + LittleEndian(b) % Pow2(k + 6) - LittleEndian(b) % 8
  {
    SplitLast(b);
    SplitLast(r);
    SplitFirst(b);
    SplitFirst(r);
    LittleEndianBound(b[..|b| - 1]);
    SixBits(k);
    EndsSum(b[0], LittleEndian(b[1..31]), b[31], k);
  }

  lemma EndsSum(first: byte, mid: nat, last: nat, k: nat)
    requires k >= 3 && first + 256 * mid < Pow2(k)
    ensures first - first % 8 + 256 * mid + Pow2(k) * (64 + last % 64)
            == 64 * Pow2(k) + (first + 256 * mid + Pow2(k) * last) % (64 * Pow2(k))
               - (first + 256 * mid + Pow2(k) * last) % 8
  {
    var low, weight := first + 256 * mid, Pow2(k);
    LowBits(low, last, k);
    HighBits(low, weight, last);
    FirstBits(first, mid);
    Spread(weight, last % 64);
  }

  lemma FirstBits(first: byte, mid: nat)
    ensures (first + 256 * mid) % 8 == first % 8
  {
  }

  lemma Spread(weight: nat, d: nat)
    ensures weight * (64 + d) == 64 * weight + weight * d
  {
  }

  lemma SixBits(k: nat)
    ensures Pow2(k + 6) == 64 * Pow2(k)
  {
    Pow2Add(6, k);
    SmallPowers();
  }

  lemma HighBits(low: nat, weight: nat, last: nat)
    requires low < weight
    ensures (low + weight * last) % (64 * weight) == low + weight * (last % 64)
  {
    var q, d := last / 64, last % 64;
    assert last == 64 * q + d;
    assert weight * (64 * q + d) == (64 * weight) * q + weight * d;
    RestBound(low, weight, d);
    ModUnique(low + weight * last, 64 * weight, q, low + weight * d);
  }

  lemma RestBound(low: nat, weight: nat, d: nat)
    requires low < weight && d < 64
    ensures low + weight * d < 64 * weight
  {
    assert weight * d <= weight * 63;
  }

  lemma LowBits(low: nat, last: nat, k: nat)
    requires k >= 3
    ensures (low + Pow2(k) * last) % 8 == low % 8
  {
    Pow2Add(3, k - 3);
    SmallPowers();
    var w := Pow2(k - 3);
    assert Pow2(k) * last == 8 * (w * last);
    ModUnique(low + Pow2(k) * last, 8, low / 8 + w * last, low % 8);
  }

  lemma {:induction false} LittleEndianAppend(b: Bytes, last: byte)
    ensures LittleEndian(b + [last]) == LittleEndian(b) + Pow2(8 * |b|) * last
  {
    if b == [] {
      assert b + [last] == [last];
    } else {
      assert (b + [last])[1..] == b[1..] + [last];
      LittleEndianAppend(b[1..], last);
      ByteUp(8 * |b[1..]|);
      var w := Pow2(8 * |b[1..]|);
      assert 256 * (w * last) == (256 * w) * last;
    }
  }

  lemma ByteUp(k: nat)
    ensures Pow2(k + 8) == 256 * Pow2(k)
  {
    Pow2Add(8, k);
    SmallPowers();
  }

  lemma SplitFirst(b: Bytes)
    requires |b| >= 2
    ensures LittleEndian(b[..|b| - 1]) == b[0] + 256 * LittleEndian(b[1..|b| - 1])
  {
    assert b[..|b| - 1][1..] == b[1..|b| - 1];
  }

  lemma SplitLast(b: Bytes)
    requires |b| >= 1
    ensures LittleEndian(b) == LittleEndian(b[..|b| - 1]) + Pow2(8 * |b| - 8) * b[|b| - 1]
  {
    var front, last := b[..|b| - 1], b[|b| - 1];
    LittleEndianAppend(front, last);
    assert front + [last] == b;
    assert 8 * |front| == 8 * |b| - 8;
  }

  lemma {:induction false} LittleEndianBound(b: Bytes)
    ensures LittleEndian(b) < Pow2(8 * |b|)
  {
    if b != [] {
      LittleEndianBound(b[1..]);
      ByteUp(8 * |b[1..]|);
    }
  }

  lemma {:induction false} ZerosAreZero(b: Bytes)
    requires forall i | 0 <= i < |b| :: b[i] == 0
    ensures LittleEndian(b) == 0
  {
    if b != [] {
      ZerosAreZero(b[1..]);
    }
  }

  /** Section 4.1 of RFC 7748: the base point is 9, in 32 bytes. */
  lemma BaseIsNine()
    ensures |BASE| == 32 && LittleEndian(BASE) == 9
  {
    ZerosAreZero(BASE[1..]);
  }

  /** Section 5 of RFC 7748: a clamped scalar is a multiple of 8 in [2^254, 2^255). */
  lemma ClampIsScalar(b: Bytes)
    requires |b| == KEY_LEN
    ensures LittleEndian(Clamped(b)) % 8 == 0
    ensures Pow2(8 * |b| - 2) <= LittleEndian(Clamped(b)) < Pow2(8 * |b| - 1)
  {
    ClampArithmetic(b);
    ScalarRange(LittleEndian(Clamped(b)), LittleEndian(b), 8 * |b| - 2);
  }

  lemma ClampIsIdempotent(b: Bytes)
    requires |b| == KEY_LEN
    ensures Clamped(Clamped(b)) == Clamped(b)
  {
    ClampedBytes(b);
    ClampedBytes(Clamped(b));
    SameEndsTwice(b, Clamped(b), Clamped(Clamped(b)));
  }

  lemma SameEndsTwice(b: Bytes, r: Bytes, t: Bytes)
    requires SameButEnds(b, r) && SameButEnds(r, t)
    ensures r == t
  {
    assert r == [r[0]] + r[1..31] + [r[31]];
    assert t == [t[0]] + t[1..31] + [t[31]];
  }

  lemma ScalarRange(scalar: nat, value: nat, k: nat)
    requires k >= 3
    requires scalar == Pow2(k) + value % Pow2(k) - value % 8
    ensures scalar % 8 == 0
    ensures Pow2(k) <= scalar < Pow2(k + 1)
  {
    var top, w := Pow2(k), Pow2(k - 3);
    Pow2Add(3, k - 3);
    SmallPowers();
    assert top == 8 * w;
    ModNested(value, w);
    var rest := value % top;
    ModUnique(top + rest - value % 8, 8, w + rest / 8, 0);
  }

  lemma ModNested(x: nat, b: nat)
    requires b > 0
    ensures (x % (8 * b)) % 8 == x % 8
  {
    var q, r := x / (8 * b), x % (8 * b);
    assert x == (8 * b) * q + r;
    assert (8 * b) * q == 8 * (b * q);
    ModUnique(x, 8, b * q + r / 8, r % 8);
  }
}
