/** The byte formats of core/apdu.c and core/npdu.c. */
module Pdus {
  import opened Words

  const MAX_APDU: nat := 1024
  const PROTOCOL_VERSION: byte := 1

  const REQUEST: byte := 0
  const RESPONSE: byte := 1
  const ERROR: byte := 2
  const REJECT: byte := 3
  const TYPE_MAX: byte := 4

  const EINVAL: int := 22
  const ENOENT: int := 2
  const ENOMEM: int := 12
  const EEXIST: int := 17
  const EPROTO: int := 71

  /** The session byte is present exactly when the flag's lowest bit is set. */
  datatype Pdu = Pdu(flag: byte, kind: byte, service: byte, session: byte, payload: seq<byte>) {
    predicate WellFormed() {
      kind < TYPE_MAX && (!HasSession(flag) ==> session == 0)
    }
  }

  predicate HasSession(flag: byte) {
    flag % 2 == 1
  }

  function HeaderSize(flag: byte): nat {
    if HasSession(flag) then 4 else 3
  }

  function Encode(p: Pdu): seq<byte> {
    [p.flag, p.kind, p.service] + (if HasSession(p.flag) then [p.session] else []) + p.payload
  }

  /** Every header byte the handler reads is there, and the status byte of an error. */
  predicate Complete(apdu: seq<byte>) {
    && |apdu| >= 2
    && (apdu[1] < TYPE_MAX ==> |apdu| >= HeaderSize(apdu[0]))
    && (apdu[1] == ERROR ==> |apdu| > HeaderSize(apdu[0]))
  }

  /** None for a type the handler rejects with -EPROTO. */
  function Decode(apdu: seq<byte>): Option<Pdu>
    requires Complete(apdu)
  {
    if apdu[1] >= TYPE_MAX then None
    else
      var session := if HasSession(apdu[0]) then apdu[3] else 0;
      Some(Pdu(apdu[0], apdu[1], apdu[2], session, apdu[HeaderSize(apdu[0])..]))
  }

  function Frame(apdu: seq<byte>): seq<byte> {
    [PROTOCOL_VERSION] + apdu
  }

  /** Decoding undoes encoding, for both header sizes. */
  lemma DecodeEncode(p: Pdu)
    requires p.WellFormed() && (p.kind == ERROR ==> p.payload != [])
    ensures Complete(Encode(p)) && Decode(Encode(p)) == Some(p)
  {
    assert Encode(p)[HeaderSize(p.flag)..] == p.payload;
  }

  /** And encoding undoes decoding: no two byte strings mean the same message. */
  lemma EncodeDecode(apdu: seq<byte>)
    requires Complete(apdu) && Decode(apdu).Some?
    ensures Decode(apdu).value.WellFormed() && Encode(Decode(apdu).value) == apdu
  {
    var n := HeaderSize(apdu[0]);
    assert apdu == apdu[..n] + apdu[n..];
    assert apdu[..n] == [apdu[0], apdu[1], apdu[2]] + (if n == 4 then [apdu[3]] else []);
  }
}
