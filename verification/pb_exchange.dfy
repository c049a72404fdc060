/** A message encoded into a buffer of exactly the size that the sizing pass tells, and decoded
    from it. */
module PbExchange {
  import opened InternalKey
  import opened Pb
  import PbEncode
  import PbDecode
  import PbRoundTrip

  lemma {:induction false} TagsAreUnique(k: Kind)
    requires PbRoundTrip.WellFormed(k)
    ensures PbDecode.UniqueTags(k)
  {
    if k.Submessage? {
      forall i | 0 <= i < |k.fields|
        ensures PbDecode.FieldUnique(k.fields[i])
      {
        assert PbRoundTrip.FieldIsWellFormed(k.fields[i]);
        TagsAreUnique(k.fields[i].kind);
      }
    }
  }

  /** The buffer is just large enough, it is filled, and the same message comes out. */
  method Exchange(k: Kind, slots: seq<Slot>) returns (size: nat, ok: bool, written: nat, r: Option<seq<Slot>>)
    requires k.Submessage? && PbRoundTrip.WellFormed(k) && HasFields(k, slots) && PbRoundTrip.PartsFit(k, slots)
    ensures ok && written == size && r == Some(slots)
  {
    hide EncodeMessage, HasFields, PbRoundTrip.WellFormed, PbRoundTrip.PartsFit;
    size := PbEncode.GetEncodedSize(k, slots);
    var out := new PbEncode.OStream(true, size);
    ok := PbEncode.Encode(out, k, slots);
    written := out.bytesWritten;
    assert [] + EncodeMessage(k, slots) == EncodeMessage(k, slots);
    var in' := new PbDecode.IStream(out.state, 0, written);
    TagsAreUnique(k);
    PbRoundTrip.RoundTrip(k, slots);
    r := PbDecode.Decode(in', k);
  }
}
