/**
 * The element names of the per-peer WebRTC endpoints. A client id is an opaque pointer;
 * the pipeline names its endpoint "webrtcbin_%p", and glibc's %p prints a null pointer as
 * "(nil)" and any other pointer as "0x" followed by its lower-case hexadecimal digits.
 * Lookup by name is therefore lookup by client id, because the name determines the id.
 */
module EndpointNames {
  import opened Wrappers

  const NamePrefix: string := "webrtcbin_"
  const NullText: string := "(nil)"

  function HexDigit(d: nat): (c: char)
    requires d < 16
    ensures DigitValue(c) == Some(d)
    ensures '0' <= c <= '9' || 'a' <= c <= 'f'
  {
    if d < 10 then ('0' as int + d) as char else ('a' as int + d - 10) as char
  }

  function DigitValue(c: char): Option<nat> {
    if '0' <= c <= '9' then Some(c as int - '0' as int)
    else if 'a' <= c <= 'f' then Some(c as int - 'a' as int + 10)
    else None
  }

  /** The hexadecimal digits of `n`, most significant first, without leading zeros. */
  function Hex(n: nat): (s: string)
    ensures |s| >= 1
    decreases n
  {
    if n < 16 then [HexDigit(n)] else Hex(n / 16) + [HexDigit(n % 16)]
  }

  /** A reader's inverse of Hex: the value of a string of lower-case hex digits. */
  function HexValue(s: string): Option<nat>
    decreases |s|
  {
    if s == [] then None
    else
      var d := DigitValue(s[|s| - 1]);
      if d.None? then None
      else if |s| == 1 then d
      else
        match HexValue(s[..|s| - 1])
        case None => None
        case Some(v) => Some(v * 16 + d.value)
  }

  /** What %p prints for a pointer. */
  function PointerText(p: nat): string {
    if p == 0 then NullText else "0x" + Hex(p)
  }

  /** The endpoint's element name for a client, as both the join and the lookups format it. */
  function EndpointName(clientId: nat): string {
    NamePrefix + PointerText(clientId)
  }

  /** A reader's inverse of EndpointName. */
  function ClientIdOf(name: string): Option<nat> {
    if |name| < |NamePrefix| || name[..|NamePrefix|] != NamePrefix then None
    else
      var text := name[|NamePrefix|..];
      if text == NullText then Some(0)
      else if |text| < 3 || text[..2] != "0x" then None
      else
        match HexValue(text[2..])
        case None => None
        case Some(v) => if v == 0 then None else Some(v)
  }

  lemma {:induction false} HexRoundTrip(n: nat)
    ensures HexValue(Hex(n)) == Some(n)
    decreases n
  {
    if n < 16 {
      assert DigitValue(HexDigit(n)) == Some(n);
    } else {
      var s := Hex(n);
      assert s[..|s| - 1] == Hex(n / 16);
      assert s[|s| - 1] == HexDigit(n % 16);
      assert DigitValue(HexDigit(n % 16)) == Some(n % 16);
      HexRoundTrip(n / 16);
    }
  }

  /** Reading the name back gives the client id it was made from. */
  lemma EndpointNameRoundTrip(clientId: nat)
    ensures ClientIdOf(EndpointName(clientId)) == Some(clientId)
  {
    var name := EndpointName(clientId);
    assert name[..|NamePrefix|] == NamePrefix;
    assert name[|NamePrefix|..] == PointerText(clientId);
    if clientId != 0 {
      var text := PointerText(clientId);
      assert text[..2] == "0x";
      assert text[2..] == Hex(clientId);
      assert text != NullText by { assert text[0] != NullText[0]; }
      HexRoundTrip(clientId);
    }
  }

  /** Two clients never share an endpoint name, so a lookup by name finds only that client's endpoint. */
  lemma EndpointNameInjective(a: nat, b: nat)
    ensures EndpointName(a) == EndpointName(b) <==> a == b
  {
    if EndpointName(a) == EndpointName(b) {
      EndpointNameRoundTrip(a);
      EndpointNameRoundTrip(b);
    }
  }
}
