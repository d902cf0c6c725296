/** The source-subnet and key checks in front of the admin routes (src/routes/mod.rs). */
module AdminAccess {
  import opened Wrappers
  import opened Hex
  import opened Bits
  import opened Crypto

  const WORD_BITS: nat := 32

  datatype IpAddr = V4(word: nat) | V6

  /** ADMIN_ALLOWED_SUBNET after splitting at `/` and parsing; None stands for text that does not parse. */
  datatype Subnet = Subnet(base: Option<nat>, prefix: Option<nat>)

  predicate Words(subnet: Subnet, addr: IpAddr) {
    && (subnet.base.Some? ==> subnet.base.value < Pow2(WORD_BITS))
    && (subnet.prefix.Some? ==> subnet.prefix.value < 256)
    && (addr.V4? ==> addr.word < Pow2(WORD_BITS))
  }

  function Mask(prefix: nat): nat
    requires prefix <= WORD_BITS
  {
    if prefix == 0 then 0 else Shl(Pow2(WORD_BITS) - 1, WORD_BITS, WORD_BITS - prefix)
  }

  function CheckAdminIp(subnet: Subnet, addr: IpAddr): Result<(), AppError> {
    var base :- subnet.base.ToResult(AppError.Internal);
    var prefix :- subnet.prefix.ToResult(AppError.Internal);
    if prefix > WORD_BITS then Failure(Internal)
    else if addr.V6? then Failure(Unauthorized)
    else if And(addr.word, Mask(prefix)) == And(base, Mask(prefix)) then Success(())
    else Failure(Unauthorized)
  }

  function CheckAdminKey(header: Option<string>, c: Config): Result<(), AppError> {
    var key :- header.ToResult(Unauthorized);
    Need(key == Encode(c.software), Unauthorized)
  }

  lemma MaskIsHighOnes(prefix: nat)
    requires prefix <= WORD_BITS
    ensures Pow2(WORD_BITS - prefix) <= Pow2(WORD_BITS)
    ensures Mask(prefix) == Pow2(WORD_BITS) - Pow2(WORD_BITS - prefix)
  {
    var s := WORD_BITS - prefix;
    Pow2Monotone(s, WORD_BITS);
    if prefix > 0 {
      ShiftedOnes(Pow2(WORD_BITS), Pow2(s));
    }
  }

  /** The aligned block of `size` addresses that holds the base. */
  predicate InBlock(word: nat, base: nat, size: nat)
    requires size > 0
  {
    base - base % size <= word < base - base % size + size
  }

  lemma MaskedIsBlock(word: nat, base: nat, prefix: nat)
    requires prefix <= WORD_BITS && word < Pow2(WORD_BITS) && base < Pow2(WORD_BITS)
    ensures And(word, Mask(prefix)) == And(base, Mask(prefix)) <==> InBlock(word, base, Pow2(WORD_BITS - prefix))
  {
    MaskRoundsDown(word, prefix);
    MaskRoundsDown(base, prefix);
    SameBlock(word, base, Pow2(WORD_BITS - prefix));
  }

  lemma MaskRoundsDown(word: nat, prefix: nat)
    requires prefix <= WORD_BITS && word < Pow2(WORD_BITS)
    ensures And(word, Mask(prefix)) == word - word % Pow2(WORD_BITS - prefix)
  {
    MaskIsHighOnes(prefix);
    AndHighMask(word, WORD_BITS, WORD_BITS - prefix);
  }

  /** Section 3.1 of RFC 4632: the addresses let in are the aligned block of 2^(32 - prefix)
      addresses that holds the base, and every other configuration or address is refused. */
  lemma AdmitsExactlyTheBlock(subnet: Subnet, addr: IpAddr)
    requires Words(subnet, addr)
    ensures CheckAdminIp(subnet, addr).Success? <==>
            && subnet.base.Some? && subnet.prefix.Some? && subnet.prefix.value <= 32 && addr.V4?
            && InBlock(addr.word, subnet.base.value, Pow2(32 - subnet.prefix.value))
    ensures CheckAdminIp(subnet, addr).Failure? ==>
              CheckAdminIp(subnet, addr) == Failure(Internal) || CheckAdminIp(subnet, addr) == Failure(Unauthorized)
  {
    if subnet.base.Some? && subnet.prefix.Some? && subnet.prefix.value <= WORD_BITS && addr.V4? {
      MaskedIsBlock(addr.word, subnet.base.value, subnet.prefix.value);
    }
  }

  /** The check fails with an internal error exactly when the configured subnet is malformed. */
  lemma MalformedSubnetIsInternal(subnet: Subnet, addr: IpAddr)
    ensures CheckAdminIp(subnet, addr) == Failure(Internal) <==>
            subnet.base.None? || subnet.prefix.None? || subnet.prefix.value > WORD_BITS
  {
  }

  lemma ShiftedOnes(w: nat, p: nat)
    requires 0 < p <= w
    ensures ((w - 1) * p) % w == w - p
  {
    assert (w - 1) * p == w * (p - 1) + (w - p);
    ModUnique((w - 1) * p, w, p - 1, w - p);
  }

  lemma SameBlock(x: nat, y: nat, size: nat)
    requires size > 0
    ensures x - x % size == y - y % size <==> y - y % size <= x < y - y % size + size
  {
    var q := y / size;
    assert y - y % size == size * q;
    if size * q <= x < size * q + size {
      ModUnique(x, size, q, x - size * q);
    }
  }

  /** Only the exact hexadecimal text of the software secret is let in; every other header, and none at
      all, is unauthorized. */
  lemma KeyIsTheSecret(header: Option<string>, c: Config)
    ensures CheckAdminKey(header, c).Success? <==> header == Some(Encode(c.software))
    ensures header != Some(Encode(c.software)) ==> CheckAdminKey(header, c) == Failure(Unauthorized)
  {
  }

  /** So the hexadecimal text of a key is let in exactly if the key is the secret. */
  lemma OnlyTheSecretsText(key: Bytes, c: Config)
    ensures CheckAdminKey(Some(Encode(key)), c).Success? <==> key == c.software
  {
    if Encode(key) == Encode(c.software) {
      Injective(key, c.software);
    }
  }
}
