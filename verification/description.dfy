/** Derivation of the TFHE-rs ciphertext descriptor from a TFHE-rs integer type. */
module Description {
  import opened Results
  import opened Errors
  import opened Dtypes

  /** The noise level a descriptor announces; the bridge always announces it as unknown,
      which asks TFHE-rs to bootstrap before using the value. */
  datatype NoiseLevel = UnknownNoise | Nominal(level: nat)

  /** The fields of a TFHE-rs `FheInt` description, in constructor order. */
  datatype FheIntDescription = FheIntDescription(
    width: nat,
    isSigned: bool,
    messageModulus: nat,
    carryModulus: nat,
    degree: nat,
    lweSize: nat,
    nCts: nat,
    noiseLevel: NoiseLevel,
    ksFirst: bool)

  /** The descriptor of a TFHE-rs integer type. A zero message width makes the block count
      a division by zero, which the source raises as ZeroDivisionError. */
  function DescriptionFromType(t: TfhersIntegerType): (r: Result<FheIntDescription, BridgeError>)
    ensures r.Failure? <==> t.msgWidth == 0
    ensures r.Failure? ==> r.error == ZeroMessageWidth
    ensures r.Success? ==>
      var d := r.value;
      && d.width == t.bitWidth
      && d.isSigned == t.isSigned
      && d.messageModulus == Pow2(t.msgWidth)
      && d.carryModulus == Pow2(t.carryWidth)
      // the degree is the largest value a block's message bits hold, carries unused
      && d.degree + 1 == d.messageModulus
      && d.lweSize == t.params.polynomialSize + 1
      // the number of whole message blocks that fit in the bit width
      && d.nCts * t.msgWidth <= t.bitWidth < (d.nCts + 1) * t.msgWidth
      && d.noiseLevel == UnknownNoise
      && (d.ksFirst <==> t.params.encryptionKeyChoice == Big)
  {
    if t.msgWidth == 0 then
      Failure(ZeroMessageWidth)
    else
      var messageModulus := Pow2(t.msgWidth);
      var carryModulus := Pow2(t.carryWidth);
      var lweSize := t.params.polynomialSize + 1;
      var nCts := t.bitWidth / t.msgWidth;
      var ksFirst := t.params.encryptionKeyChoice == Big;
      var degree := messageModulus - 1;
      Success(FheIntDescription(
        t.bitWidth, t.isSigned, messageModulus, carryModulus, degree, lweSize, nCts, UnknownNoise, ksFirst))
  }

  /** The descriptor loses nothing the bridge reads from the type: two types with the same
      descriptor agree on signedness, all three widths, polynomial size and key choice. */
  lemma DescriptionDeterminesType(t1: TfhersIntegerType, t2: TfhersIntegerType)
    requires DescriptionFromType(t1).Success? && DescriptionFromType(t2).Success?
    requires DescriptionFromType(t1).value == DescriptionFromType(t2).value
    ensures t1.isSigned == t2.isSigned && t1.bitWidth == t2.bitWidth
    ensures t1.msgWidth == t2.msgWidth && t1.carryWidth == t2.carryWidth
    ensures t1.params == t2.params
  {
    var d := DescriptionFromType(t1).value;
    Log2OfPow2(t1.msgWidth);
    Log2OfPow2(t2.msgWidth);
    Log2OfPow2(t1.carryWidth);
    Log2OfPow2(t2.carryWidth);
    assert Log2Floor(d.messageModulus) == t1.msgWidth == t2.msgWidth;
    assert Log2Floor(d.carryModulus) == t1.carryWidth == t2.carryWidth;
  }
}
