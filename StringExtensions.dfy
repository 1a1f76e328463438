/** BurstLib's `string.ToByteArray()`: a null or empty string yields null,
    anything else is decoded pair by pair. A C# null string is `None`; the
    returned null array is `Success(None)`. */
module LibStringExtensions {
  import opened Bytes
  import Hex

  method ToByteArray(hex: Option<string>) returns (r: Result<Option<seq<byte>>>)
    ensures hex.None? || hex == Some([]) ==> r == Success(None)
    ensures hex.Some? && hex.value != [] ==>
      (r.Success? <==> Hex.Decode(hex.value).Success?) &&
      (r.Success? ==> r.value == Some(Hex.Decode(hex.value).value)) &&
      (r.Failure? ==> r.error == Hex.Decode(hex.value).error)
  {
    if hex.None? || hex.value == [] {
      return Success(None);
    }
    var d := Hex.DecodeLoop(hex.value);
    if d.Failure? {
      return Failure(d.error);
    }
    return Success(Some(d.value));
  }
}

/** The miner's own `string.ToByteArray()`, the one MiningInfo resolves to: the
    same loop without the guard, so a null string throws and an empty string
    gives an empty array. On a non-empty string both contracts are the same
    Hex.Decode, so the two decoders agree there. */
module MinerStringExtensions {
  import opened Bytes
  import Hex

  method ToByteArray(hex: Option<string>) returns (r: Result<seq<byte>>)
    ensures hex.None? ==> r == Failure("NullReferenceException")
    ensures hex.Some? ==> r == Hex.Decode(hex.value)
  {
    if hex.None? {
      return Failure("NullReferenceException");
    }
    r := Hex.DecodeLoop(hex.value);
  }
}
