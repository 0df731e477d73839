/** HKDF over HMAC-SHA256 (sections 2.2 and 2.3 of RFC 5869). */
module Hkdf {
  import opened Results
  import opened Base64
  import opened Crypto

  /** T(i) of section 2.3; T(0) is empty. The counter is one byte. */
  function T(su: Suite, key: bytes, info: bytes, i: nat): bytes
    requires i <= 255
  {
    if i == 0 then [] else su.hmac(key, T(su, key, info, i - 1) + info + [i])
  }

  /** T(1) to T(n), one after the other. */
  function Blocks(su: Suite, key: bytes, info: bytes, n: nat): bytes
    requires n <= 255
  {
    if n == 0 then [] else Blocks(su, key, info, n - 1) + T(su, key, info, n)
  }

  lemma {:induction false} BlocksSize(su: Suite, key: bytes, info: bytes, n: nat)
    requires su.Valid() && n <= 255
    ensures |Blocks(su, key, info, n)| == 32 * n
  {
    if n > 0 { BlocksSize(su, key, info, n - 1); }
  }

  lemma {:induction false} BlocksPrefix(su: Suite, key: bytes, info: bytes, m: nat, n: nat)
    requires su.Valid() && m <= n <= 255
    ensures Blocks(su, key, info, m) <= Blocks(su, key, info, n)
  {
    if m < n { BlocksPrefix(su, key, info, m, n - 1); }
  }

  const LIMIT := 255 * 32

  /** The first `length` bytes of T(1) to T(255). */
  function Expand(su: Suite, key: bytes, info: bytes, length: nat): (r: bytes)
    requires su.Valid() && length <= LIMIT
    ensures |r| == length
  {
    BlocksSize(su, key, info, 255);
    Blocks(su, key, info, 255)[..length]
  }

  /** Asking for less gives a prefix of asking for more. */
  lemma ExpandPrefix(su: Suite, key: bytes, info: bytes, short: nat, long: nat)
    requires su.Valid() && short <= long <= LIMIT
    ensures Expand(su, key, info, short) <= Expand(su, key, info, long)
  {
    BlocksSize(su, key, info, 255);
    var all := Blocks(su, key, info, 255);
    assert all[..short] == all[..long][..short];
  }

  datatype Overflow = CounterOverflow

  /** The provisioning script's loop. It fails, when the counter leaves its byte, exactly
      for lengths beyond 255 blocks. */
  method HkdfExpand(su: Suite, key: bytes, info: bytes, length: int) returns (r: Result<bytes, Overflow>)
    requires su.Valid()
    ensures r == if length > LIMIT then Err(CounterOverflow)
                 else Ok(Expand(su, key, info, if length < 0 then 0 else length))
  {
    var t: bytes := [];
    var okm: bytes := [];
    var i: int := 1;
    while |okm| < length
      invariant 1 <= i <= 256 && |okm| == 32 * (i - 1)
      invariant t == T(su, key, info, i - 1)
      invariant okm == Blocks(su, key, info, i - 1)
      decreases 256 - i
    {
      if i > 255 { return Err(CounterOverflow); }
      t := su.hmac(key, t + info + [i]);
      okm := okm + t;
      i := i + 1;
    }
    BlocksPrefix(su, key, info, i - 1, 255);
    BlocksSize(su, key, info, 255);
    var n := if length < 0 then 0 else length;
    assert Blocks(su, key, info, 255)[..n] == okm[..n];
    return Ok(okm[..n]);
  }

  function Extract(su: Suite, salt: bytes, ikm: bytes): bytes { su.hmac(salt, ikm) }
}
