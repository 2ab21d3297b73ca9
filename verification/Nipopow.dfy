/** The envelope around a NiPoPoW proof on the wire. */
module Nipopow {
  import opened Headers
  import opened Codec

  const NIPOPOW_PROOF_MAX_SIZE: nat := 2_000_000

  datatype Fault = BodyTooLarge(size: nat) | BadVlq | InvalidProofLength(length: nat) | Truncated

  datatype Opened = Proof(bytes: Bytes) | Refused(fault: Fault)

  /** Length, proof, and an empty pad. The length is written as 32 bits. */
  function Serialize(proof: Bytes): Bytes {
    Vlq(|proof| % U32) + proof + Vlq(0)
  }

  function Parse(body: Bytes): Opened {
    if |body| > NIPOPOW_PROOF_MAX_SIZE then Refused(BodyTooLarge(|body|))
    else
      match ReadVlq(body, U32)
      case None => Refused(BadVlq)
      case Some((n, rest)) =>
        if n == 0 || n >= NIPOPOW_PROOF_MAX_SIZE then Refused(InvalidProofLength(n))
        else
          match Take(rest, n)
          case None => Refused(Truncated)
          case Some((proof, tail)) => if PadFault(tail).Some? then Refused(PadFault(tail).value) else Proof(proof)
  }

  /** A pad is skipped, but it has to be there. */
  function PadFault(tail: Bytes): Option<Fault> {
    match ReadVlq(tail, U16)
    case None => Some(BadVlq)
    case Some((pad, rest)) => if 0 < pad < NIPOPOW_PROOF_MAX_SIZE && pad > |rest| then Some(Truncated) else None
  }

  method ParseProof(body: Bytes) returns (r: Opened)
    ensures r == Parse(body)
  {
    if |body| > NIPOPOW_PROOF_MAX_SIZE {
      return Refused(BodyTooLarge(|body|));
    }
    var cur := new Cursor(body);
    var n := cur.TakeVlq(U32);
    if n.None? {
      return Refused(BadVlq);
    }
    if n.value == 0 || n.value >= NIPOPOW_PROOF_MAX_SIZE {
      return Refused(InvalidProofLength(n.value));
    }
    var proof := cur.TakeBytes(n.value);
    if proof.None? {
      return Refused(Truncated);
    }
    var fault := SkipPad(cur);
    r := if fault.Some? then Refused(fault.value) else Proof(proof.value);
  }

  method SkipPad(cur: Cursor) returns (fault: Option<Fault>)
    requires cur.Valid()
    modifies cur
    ensures fault == PadFault(old(cur.Rest()))
  {
    var pad := cur.TakeVlq(U16);
    if pad.None? {
      return Some(BadVlq);
    }
    fault := None;
    if 0 < pad.value < NIPOPOW_PROOF_MAX_SIZE {
      var skipped := cur.TakeBytes(pad.value);
      if skipped.None? {
        fault := Some(Truncated);
      }
    }
  }

  lemma EnvelopeSize(proof: Bytes)
    ensures |proof| == 0 ==> |Serialize(proof)| == 2
    ensures |Serialize(proof)| <= NIPOPOW_PROOF_MAX_SIZE <==> |proof| <= 1_999_996
  {
    VlqLength(|proof| % U32);
    if |proof| < U32 {
      Unchanged(|proof|, U32);
    }
  }

  lemma Opens(proof: Bytes)
    requires 1 <= |proof| <= 1_999_996
    ensures Parse(Serialize(proof)) == Proof(proof)
  {
    var n := |proof|;
    EnvelopeSize(proof);
    Unchanged(n, U32);
    Assoc(Vlq(n), proof, Vlq(0));
    ReadVlqWritten(n, U32, proof + Vlq(0));
    assert (proof + Vlq(0))[..n] == proof && (proof + Vlq(0))[n..] == Vlq(0);
    assert Vlq(0) + [] == Vlq(0);
    ReadVlqWritten(0, U16, []);
  }

  /** A proof comes out of its envelope exactly when it has 1 to 1,999,996 bytes. */
  lemma OpensIff(proof: Bytes)
    ensures Parse(Serialize(proof)) == Proof(proof) <==> 1 <= |proof| <= 1_999_996
    ensures |proof| == 0 ==> Parse(Serialize(proof)) == Refused(InvalidProofLength(0))
    ensures |proof| > 1_999_996 ==> Parse(Serialize(proof)).Refused? && Parse(Serialize(proof)).fault.BodyTooLarge?
  {
    EnvelopeSize(proof);
    if |proof| == 0 {
      Unchanged(0, U32);
      Assoc(Vlq(0), proof, Vlq(0));
      ReadVlqWritten(0, U32, proof + Vlq(0));
    } else if |proof| <= 1_999_996 {
      Opens(proof);
    }
  }

  /** A body holds a proof exactly if it is a length from 1 to 1,999,999, as many bytes, a pad length and no less than that. */
  lemma ProofIff(body: Bytes, proof: Bytes)
    ensures Parse(body) == Proof(proof) <==>
              && |body| <= 2_000_000 && 1 <= |proof| < 2_000_000
              && exists rest: Bytes, pad: nat, tail: Bytes ::
                   ReadVlq(body, U32) == Some((|proof|, rest)) && proof <= rest && ReadVlq(rest[|proof|..], U16) == Some((pad, tail)) && pad <= |tail|
  {
    if Parse(body) == Proof(proof) {
      var (n, rest) := ReadVlq(body, U32).value;
      assert rest[..n] == proof;
      var (pad, tail) := ReadVlq(rest[n..], U16).value;
      assert ReadVlq(body, U32) == Some((|proof|, rest)) && ReadVlq(rest[|proof|..], U16) == Some((pad, tail));
    }
  }

  lemma EnvelopeExample()
    ensures Serialize([7, 8]) == [2, 7, 8, 0]
  {
  }
}
