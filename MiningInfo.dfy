/** The round descriptor received from the pool: the previous generation
    signature, the base target, the block height and the target deadline,
    with the byte forms the miner hashes. Every field is computed once by
    the constructor and never changes, so the descriptor is a value. */
module MiningInfo {
  import opened Bytes
  import Text
  import Hex

  datatype MiningInfo = MiningInfo(
    previousGenerationSignature: string,
    previousGenerationSignatureBytes: seq<byte>,
    baseTarget: u64,
    blockHeight: u64,
    blockHeightBytes: seq<byte>,
    deadline: u64,
    deadlineBytes: seq<byte>)

  /** The JSON constructor. The signature is decoded with the miner's own
      unguarded ToByteArray (a null signature throws NullReferenceException),
      then the base target and the height are parsed with ulong.Parse, in
      that order; the first step that throws decides the exception. The
      height and the target deadline are stored big-endian. */
  function NewMiningInfo(generationSignature: Option<string>, baseTarget: Option<string>,
                         height: Option<string>, targetDeadline: u64): (r: Result<MiningInfo>)
    ensures r.Success? <==>
      generationSignature.Some? && Hex.Decode(generationSignature.value).Success? &&
      Text.ULongParse(baseTarget).Success? && Text.ULongParse(height).Success?
    ensures generationSignature.None? ==> r == Failure("NullReferenceException")
    ensures generationSignature.Some? && Hex.Decode(generationSignature.value).Failure? ==>
      r == Failure(Hex.Decode(generationSignature.value).error)
    ensures (generationSignature.Some? && Hex.Decode(generationSignature.value).Success? &&
             Text.ULongParse(baseTarget).Failure?) ==>
      r == Failure(Text.ULongParse(baseTarget).error)
    ensures (generationSignature.Some? && Hex.Decode(generationSignature.value).Success? &&
             Text.ULongParse(baseTarget).Success? && Text.ULongParse(height).Failure?) ==>
      r == Failure(Text.ULongParse(height).error)
    ensures r.Success? ==>
      var m := r.value;
      m.previousGenerationSignature == generationSignature.value &&
      m.previousGenerationSignatureBytes == Hex.Decode(generationSignature.value).value &&
      m.baseTarget == Text.ULongParse(baseTarget).value &&
      m.blockHeight == Text.ULongParse(height).value &&
      |m.blockHeightBytes| == 8 && FromBigEndian(m.blockHeightBytes) == m.blockHeight &&
      m.deadline == targetDeadline &&
      |m.deadlineBytes| == 8 && FromBigEndian(m.deadlineBytes) == targetDeadline
  {
    if generationSignature.None? then Failure("NullReferenceException")
    else
      match Hex.Decode(generationSignature.value)
      case Failure(e) => Failure(e)
      case Success(gensigBytes) =>
        match Text.ULongParse(baseTarget)
        case Failure(e) => Failure(e)
        case Success(bt) =>
          match Text.ULongParse(height)
          case Failure(e) => Failure(e)
          case Success(h) =>
            BigEndian64RoundTrip(h);
            BigEndian64RoundTrip(targetDeadline);
            Success(MiningInfo(generationSignature.value, gensigBytes, bt, h, BigEndian64(h),
                               targetDeadline, BigEndian64(targetDeadline)))
  }

  /** A height rendered in decimal is parsed back exactly, and its byte form
      is its 8-byte big-endian encoding. */
  lemma {:induction false} DecimalHeightRoundTrip(gs: string, bt: string, h: u64, d: u64)
    requires NewMiningInfo(Some(gs), Some(bt), Some(Text.DecimalString(h)), d).Success?
    ensures NewMiningInfo(Some(gs), Some(bt), Some(Text.DecimalString(h)), d).value.blockHeight == h
    ensures NewMiningInfo(Some(gs), Some(bt), Some(Text.DecimalString(h)), d).value.blockHeightBytes == BigEndian64(h)
  {
    Text.ParseDecimalString(h);
  }
}
