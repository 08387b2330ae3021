/**
 Zone serial numbers and the three independently written comparisons of them:
 `serialGreater` (dns-update-persistent), `serialNewer` (ixfr) and `less`
 (secondary-persistent). Serials are 32-bit and wrap.
 */
module Serials {
  const MODULUS: int := 0x1_0000_0000
  const HALF: int := 0x8000_0000
  const MAX_SERIAL_INCREMENT: int := 2147483647

  type Serial = s: int | 0 <= s < 0x1_0000_0000

  /** 32-bit wrap-around addition. */
  function Advance(s: Serial, d: int): Serial {
    (s + d) % MODULUS
  }

  /** The two's-complement reading of a 32-bit value. */
  function Int32(s: Serial): int {
    if s < HALF then s else s - MODULUS
  }

  predicate SerialGreater(a: Serial, b: Serial) {
    a != b && ((a < b && b - a > HALF) || (a > b && a - b < HALF))
  }

  predicate SerialNewer(a: Serial, b: Serial) {
    if a == b then false else Int32(Advance(a, MODULUS - b)) > 0
  }

  predicate Less(a: Serial, b: Serial) {
    if a < b then b - a <= MAX_SERIAL_INCREMENT else a - b > MAX_SERIAL_INCREMENT
  }

  /** Section 3.2 of RFC 1982, said through addition: `a` is reached from `b`
      by adding something between 1 and 2^31 - 1. */
  ghost predicate Ahead(a: Serial, b: Serial) {
    exists d :: 1 <= d < HALF && Advance(b, d) == a
  }

  /** All three comparisons decide the RFC 1982 order, except that at distance
      exactly 2^31 (where the RFC leaves the order undefined) `less` says yes in
      the direction from the larger to the smaller number. */
  lemma ComparisonsAgree(a: Serial, b: Serial)
    ensures SerialGreater(a, b) <==> Ahead(a, b)
    ensures SerialNewer(a, b) <==> Ahead(a, b)
    ensures Less(b, a) <==> Ahead(a, b) || b - a == HALF
  {
    var d := Advance(a, MODULUS - b);
    assert Advance(b, d) == a;
    if Ahead(a, b) {
      var e :| 1 <= e < HALF && Advance(b, e) == a;
      assert e == d;
    }
  }

  /** A step forward of any legal size is newer under all three comparisons and
      never older. */
  lemma AdvanceIsNewer(s: Serial, d: int)
    requires 1 <= d < HALF
    ensures SerialGreater(Advance(s, d), s) && SerialNewer(Advance(s, d), s) && Less(s, Advance(s, d))
    ensures !SerialGreater(s, Advance(s, d)) && !SerialNewer(s, Advance(s, d)) && !Less(Advance(s, d), s)
  {
  }

  /** The order is not transitive: three serials can each be newer than the one
      before and the last still older than the first. */
  lemma NewerIsNotTransitive()
    ensures exists a: Serial, b: Serial, c: Serial ::
              SerialNewer(b, a) && SerialNewer(c, b) && SerialNewer(a, c)
  {
    assert SerialNewer(0x6000_0000, 0) && SerialNewer(0xC000_0000, 0x6000_0000) && SerialNewer(0, 0xC000_0000);
  }
}
