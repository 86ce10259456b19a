/**
 * The RTP header extension in the two-byte-header form of section 4.3 of
 * RFC 8285, as GStreamer's RTP buffer writes it when the payloader probe
 * attaches a DownMessage, and as a receiver reads it back.
 *
 * Wire layout of the extension block:
 *   0x10, 0x0 | appbits        the 12-bit "defined by profile" value 0x100 and 4 application bits
 *   length (16 bits)           the size of the element area in 32-bit words
 *   elements                   ID (8 bits, 1..255), L (8 bits, 0..255), L bytes of data
 *   padding                    zero bytes up to the next word boundary
 * A receiver skips zero bytes between elements (section 4.3 of RFC 8285).
 */
module RtpHeaderExt {
  import opened Wrappers

  type byte = x: int | 0 <= x < 256

  /** The largest data length an element's 8-bit length field can express. */
  const MaxElementData: nat := 255

  datatype Element = Element(id: byte, data: seq<byte>)

  /** The header-extension part of an RTP packet. */
  datatype HeaderExtension =
    | NoExtension
    | TwoByte(appBits: nat, elements: seq<Element>)
    | OtherProfile(definedByProfile: nat, body: seq<byte>)

  predicate ValidElement(e: Element) {
    e.id != 0 && |e.data| <= MaxElementData
  }

  predicate ValidElements(es: seq<Element>) {
    forall k :: 0 <= k < |es| ==> ValidElement(es[k])
  }

  /**
   * Appending one two-byte-header element, as gst_rtp_buffer_add_extension_twobytes_header
   * does: a packet without an extension gets a fresh two-byte block; a two-byte block with the
   * same application bits gets the element appended; any other extension refuses the element.
   */
  function AddTwoByteElement(ext: HeaderExtension, appBits: nat, e: Element): (r: Option<HeaderExtension>)
    ensures r.Some? <==> (ext.NoExtension? || (ext.TwoByte? && ext.appBits == appBits))
    ensures r.Some? ==> r.value.TwoByte? && r.value.appBits == appBits
    ensures r.Some? && ext.NoExtension? ==> r.value.elements == [e]
    ensures r.Some? && ext.TwoByte? ==> r.value.elements == ext.elements + [e]
  {
    match ext
    case NoExtension => Some(TwoByte(appBits, [e]))
    case TwoByte(bits, es) => if bits == appBits then Some(TwoByte(appBits, es + [e])) else None
    case OtherProfile(_, _) => None
  }

  /** The data of the first element carrying `id`, which is what a receiver extracts. */
  function Lookup(es: seq<Element>, id: byte): (r: Option<seq<byte>>)
    ensures r.None? <==> forall k :: 0 <= k < |es| ==> es[k].id != id
    ensures r.Some? ==> exists k :: 0 <= k < |es| && es[k].id == id && es[k].data == r.value
                                     && forall j :: 0 <= j < k ==> es[j].id != id
  {
    if es == [] then None
    else if es[0].id == id then Some(es[0].data)
    else
      var r := Lookup(es[1..], id);
      assert forall k :: 1 <= k < |es| ==> es[k] == es[1..][k - 1];
      r
  }

  function Zeros(n: nat): (r: seq<byte>)
    ensures |r| == n && forall k :: 0 <= k < n ==> r[k] == 0
  {
    if n == 0 then [] else [0] + Zeros(n - 1)
  }

  function EncodeElement(e: Element): seq<byte>
    requires ValidElement(e)
  {
    [e.id, |e.data|] + e.data
  }

  function EncodeElements(es: seq<Element>): (r: seq<byte>)
    requires ValidElements(es)
  {
    if es == [] then [] else EncodeElement(es[0]) + EncodeElements(es[1..])
  }

  /** How many zero bytes bring `n` bytes up to a whole number of 32-bit words. */
  function PadLength(n: nat): (r: nat)
    ensures r < 4 && (n + r) % 4 == 0
  {
    (4 - n % 4) % 4
  }

  /** The element area as it is written on the wire, padded to whole words. */
  function ElementArea(es: seq<Element>): (r: seq<byte>)
    requires ValidElements(es)
    ensures |r| % 4 == 0
  {
    var body := EncodeElements(es);
    body + Zeros(PadLength(|body|))
  }

  predicate Encodable(appBits: nat, es: seq<Element>) {
    appBits < 16 && ValidElements(es) && |ElementArea(es)| / 4 < 0x1_0000
  }

  /** The wire form of a two-byte-header extension block. */
  function EncodeBlock(appBits: nat, es: seq<Element>): seq<byte>
    requires Encodable(appBits, es)
  {
    var area := ElementArea(es);
    var words := |area| / 4;
    [0x10, appBits, words / 256, words % 256] + area
  }

  /** A receiver's reading of an element area: zero bytes are padding, anything else starts an element. */
  function ParseElements(area: seq<byte>): Option<seq<Element>>
    decreases |area|
  {
    if area == [] then Some([])
    else if area[0] == 0 then ParseElements(area[1..])
    else if |area| < 2 || |area| < 2 + area[1] as int then None
    else
      match ParseElements(area[2 + area[1]..])
      case None => None
      case Some(rest) => Some([Element(area[0], area[2..2 + area[1]])] + rest)
  }

  /**
   * A receiver's reading of the extension block at the start of `bytes` (what follows the
   * block, the RTP payload, is ignored). Only the two-byte-header form is accepted.
   */
  function ParseBlock(bytes: seq<byte>): Option<HeaderExtension> {
    if |bytes| < 4 || bytes[0] != 0x10 || bytes[1] >= 16 then None
    else
      var words: int := bytes[2] as int * 256 + bytes[3] as int;
      if |bytes| < 4 + 4 * words then None
      else
        match ParseElements(bytes[4..4 + 4 * words])
        case None => None
        case Some(es) => Some(TwoByte(bytes[1], es))
  }

  lemma {:induction false} ParseZeros(n: nat)
    ensures ParseElements(Zeros(n)) == Some([])
  {
    if n > 0 {
      assert Zeros(n)[1..] == Zeros(n - 1);
      ParseZeros(n - 1);
    }
  }

  lemma {:induction false} ParseEncodedElements(es: seq<Element>, pad: nat)
    requires ValidElements(es)
    ensures ParseElements(EncodeElements(es) + Zeros(pad)) == Some(es)
  {
    if es == [] {
      assert EncodeElements(es) + Zeros(pad) == Zeros(pad);
      ParseZeros(pad);
    } else {
      var e := es[0];
      var tail := EncodeElements(es[1..]) + Zeros(pad);
      var area := EncodeElements(es) + Zeros(pad);
      assert area == [e.id, |e.data|] + e.data + tail;
      assert area[0] == e.id && area[1] == |e.data|;
      assert area[2..2 + |e.data|] == e.data;
      assert area[2 + |e.data|..] == tail;
      ParseEncodedElements(es[1..], pad);
      assert [e] + es[1..] == es;
    }
  }

  /** Round trip: whatever follows the block, a receiver recovers exactly the encoded block. */
  lemma {:induction false} ParseEncodedBlock(appBits: nat, es: seq<Element>, payload: seq<byte>)
    requires Encodable(appBits, es)
    ensures ParseBlock(EncodeBlock(appBits, es) + payload) == Some(TwoByte(appBits, es))
  {
    var area := ElementArea(es);
    var words := |area| / 4;
    var bytes := EncodeBlock(appBits, es) + payload;
    assert bytes[2] as int * 256 + bytes[3] as int == words;
    assert 4 * words == |area|;
    assert bytes[4..4 + 4 * words] == area;
    ParseEncodedElements(es, PadLength(|EncodeElements(es)|));
  }
}
