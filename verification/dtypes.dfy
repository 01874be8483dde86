/** TFHE-rs integer types as the bridge sees them, and the power-of-two arithmetic on widths. */
module Dtypes {

  type Bytes = seq<bv8>

  /** Which LWE key a TFHE-rs ciphertext is encrypted under. */
  datatype EncryptionKeyChoice = Big | Small

  /** The part of the TFHE-rs crypto parameters the bridge reads. */
  datatype CryptoParams = CryptoParams(polynomialSize: nat, encryptionKeyChoice: EncryptionKeyChoice)

  /** A TFHE-rs radix integer: `bitWidth` bits split in blocks of `msgWidth` message bits,
      each block also carrying `carryWidth` carry bits. */
  datatype TfhersIntegerType = TfhersIntegerType(
    isSigned: bool,
    bitWidth: nat,
    carryWidth: nat,
    msgWidth: nat,
    params: CryptoParams)

  /** Python's `2**n` for a non-negative `n`. */
  function Pow2(n: nat): (r: nat)
    ensures r >= 1
  {
    if n == 0 then 1 else 2 * Pow2(n - 1)
  }

  /** The number of times `x` can be halved before reaching 1. */
  function Log2Floor(x: nat): (n: nat)
    requires x >= 1
  {
    if x == 1 then 0 else 1 + Log2Floor(x / 2)
  }

  /** `Log2Floor` undoes `Pow2`, so a modulus determines the width it came from. */
  lemma {:induction false} Log2OfPow2(n: nat)
    ensures Log2Floor(Pow2(n)) == n
  {
    if n > 0 {
      assert Pow2(n) / 2 == Pow2(n - 1);
      Log2OfPow2(n - 1);
    }
  }
}
