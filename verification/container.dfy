/**
 * The builder and the stub together: what the builder writes is what the stub reads back.
 */
module Container {
  import opened Wrappers
  import opened CLib
  import opened CadLocker
  import opened Builder
  import opened Stub

  /** The stub finds the builder's footer at the end of the container: the payload size and the magic. */
  lemma ReadFooterOfContainer(stub: seq<byte>, payload: seq<byte>)
    requires |payload| < TwoTo64
    ensures ReadFooter(ContainerBytes(stub, payload)) == Some(Footer(|payload|, MagicMarker))
  {
    var exe := ContainerBytes(stub, payload);
    var footer := Footer(|payload|, MagicMarker);
    ContainerLayout(stub, payload);
    FooterRoundTrip(footer);
    assert exe[|exe| - 8..] == EncodeFooter(footer)[8..];
  }

  /**
   * Unpacking a container the builder produced gives back the original drawing, byte for byte,
   * whenever the drawing and the footer together stay within what a 32-bit long can hold.
   */
  lemma UnpackOfContainer(stub: seq<byte>, payload: seq<byte>)
    requires |payload| + FooterSize <= IntMax
    ensures Unpack(ContainerBytes(stub, payload)) == Some(payload)
  {
    var exe := ContainerBytes(stub, payload);
    ContainerLayout(stub, payload);
    ReadFooterOfContainer(stub, payload);
    PayloadOffsetWithoutWrap(|payload|);
    assert PayloadRead(exe, |payload|) == Some(Xored(payload));
    XoredIsInvolution(payload);
  }

  /**
   * A drawing of LONG_MAX - 14 to LONG_MAX bytes, which the builder accepts, cannot be unpacked:
   * the offset computed at stub.c:205 wraps to a positive value and the read fails.
   */
  lemma UnpackFailsJustBelowLongMax(stub: seq<byte>, payload: seq<byte>)
    requires TwoTo31 - FooterSize < |payload| <= IntMax
    ensures Unpack(ContainerBytes(stub, payload)) == None
  {
    var exe := ContainerBytes(stub, payload);
    ReadFooterOfContainer(stub, payload);
    PayloadOffsetPositiveJustAboveLongMax(|payload|);
    assert PayloadRead(exe, |payload|) == None;
  }
}
