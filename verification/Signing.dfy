/** Request signing: the MAC is fed the timestamp, a dot and the body. */
module Signing {
  import opened Collections
  import opened Numbers

  // Octet strings; every character stands for one byte.
  type Octets = string

  type Octet = x: int | 0 <= x < 256

  /** Feeds the MAC piece by piece and prints it; `mac` is uninterpreted. */
  method ComputeSignature(mac: (Octets, Octets) -> seq<Octet>, secret: Octets, body: Octets, timestamp: Octets)
    returns (signature: string)
    ensures signature == HexEncode(mac(secret, Framed(timestamp, body)))
  {
    var fed: Octets := [];
    fed := fed + timestamp;
    fed := fed + ".";
    fed := fed + body;
    assert fed == Framed(timestamp, body);
    signature := HexEncode(mac(secret, fed));
  }

  function Framed(timestamp: Octets, body: Octets): Octets {
    timestamp + "." + body
  }

  /** What is signed: the timestamp, a dot, and the body, in this order. */
  lemma FramedExact(timestamp: Octets, body: Octets, message: Octets)
    ensures message == Framed(timestamp, body) <==>
            && |message| == |timestamp| + 1 + |body|
            && message[..|timestamp|] == timestamp
            && message[|timestamp|] == '.'
            && message[|timestamp| + 1..] == body
  {
    if |message| > |timestamp| {
      assert message == message[..|timestamp|] + [message[|timestamp|]] + message[|timestamp| + 1..];
    }
  }

  function HexDigit(d: nat): (c: char)
    requires d < 16
    ensures IsDigit(c) || 'a' <= c <= 'f'
  {
    if d < 10 then '0' + d as char else 'a' + (d - 10) as char
  }

  function HexValue(c: char): (d: Option<nat>)
    ensures d.Some? ==> d.value < 16
  {
    if IsDigit(c) then Some(DigitValue(c))
    else if 'a' <= c <= 'f' then Some((c - 'a') as nat + 10)
    else None
  }

  /** Two lower-case hexadecimal digits per octet, the high one first. */
  function HexEncode(octets: seq<Octet>): string {
    if octets == [] then ""
    else [HexDigit(octets[0] / 16), HexDigit(octets[0] % 16)] + HexEncode(octets[1..])
  }

  function HexDecode(s: string): Option<seq<Octet>> {
    if s == "" then Some([])
    else if |s| == 1 then None
    else match (HexValue(s[0]), HexValue(s[1]), HexDecode(s[2..]))
      case (Some(high), Some(low), Some(rest)) => Some([high * 16 + low] + rest)
      case _ => None
  }

  lemma {:induction false} HexRoundTrip(octets: seq<Octet>)
    ensures HexDecode(HexEncode(octets)) == Some(octets)
    ensures |HexEncode(octets)| == 2 * |octets|
  {
    if octets != [] {
      HexRoundTrip(octets[1..]);
      HexDigitRoundTrip(octets[0] / 16);
      HexDigitRoundTrip(octets[0] % 16);
      hide HexDigit, HexValue;
      var s, high, low := HexEncode(octets), octets[0] / 16, octets[0] % 16;
      assert s[0] == HexDigit(high) && s[1] == HexDigit(low) && s[2..] == HexEncode(octets[1..]);
      assert octets == [high * 16 + low] + octets[1..];
    }
  }

  /** The digits of octet i, the high one first, from the lower-case alphabet. */
  lemma {:induction false} HexDigitsAt(octets: seq<Octet>, i: nat)
    requires i < |octets|
    ensures |HexEncode(octets)| == 2 * |octets|
    ensures HexEncode(octets)[2 * i] == "0123456789abcdef"[octets[i] / 16]
    ensures HexEncode(octets)[2 * i + 1] == "0123456789abcdef"[octets[i] % 16]
  {
    HexRoundTrip(octets);
    var s := HexEncode(octets);
    assert s == [HexDigit(octets[0] / 16), HexDigit(octets[0] % 16)] + HexEncode(octets[1..]);
    if i == 0 {
      HexAlphabet(octets[0] / 16);
      HexAlphabet(octets[0] % 16);
    } else {
      HexDigitsAt(octets[1..], i - 1);
      assert s[2 * i] == HexEncode(octets[1..])[2 * (i - 1)];
      assert s[2 * i + 1] == HexEncode(octets[1..])[2 * (i - 1) + 1];
    }
  }

  lemma HexAlphabet(d: nat)
    requires d < 16
    ensures HexDigit(d) == "0123456789abcdef"[d]
  {
  }

  lemma HexDigitRoundTrip(d: nat)
    requires d < 16
    ensures HexValue(HexDigit(d)) == Some(d)
  {
  }

  /** Two signatures are equal exactly if the MACs are. */
  lemma SignaturesEqual(a: seq<Octet>, b: seq<Octet>)
    ensures HexEncode(a) == HexEncode(b) <==> a == b
  {
    HexRoundTrip(a);
    HexRoundTrip(b);
  }

  lemma FramingSplits(ts: Octets, body: Octets, ts': Octets, body': Octets)
    requires '.' !in ts && '.' !in ts'
    requires Framed(ts, body) == Framed(ts', body')
    ensures ts == ts' && body == body'
  {
    var m := Framed(ts, body);
    assert m[|ts|] == '.' && m[|ts'|] == '.';
    assert forall k :: 0 <= k < |ts| ==> m[k] == ts[k] && ts[k] in ts;
    assert forall k :: 0 <= k < |ts'| ==> m[k] == ts'[k] && ts'[k] in ts';
    assert |ts| == |ts'|;
    assert ts == m[..|ts|] == ts';
    assert body == m[|ts| + 1..] == body';
  }

  /** Two requests feed the MAC the same message only if they carry the same time and body:
      timestamps are printed integers, which contain no dot. */
  lemma SignedMessageUnique(time: int, body: Octets, time': int, body': Octets)
    ensures Framed(FormatInt(time), body) == Framed(FormatInt(time'), body')
            <==> time == time' && body == body'
  {
    FormatIntInjective(time, time');
    FormatIntInjective(time', time);
    if Framed(FormatInt(time), body) == Framed(FormatInt(time'), body') {
      FramingSplits(FormatInt(time), body, FormatInt(time'), body');
    }
  }

  /** The frame is only unambiguous because of that: any timestamp with a dot in it shares its
      message with another split. */
  lemma DottedTimestampAmbiguous(ts: Octets, body: Octets)
    requires '.' in ts
    ensures exists ts', body' :: ts' != ts && Framed(ts', body') == Framed(ts, body)
  {
    var i :| 0 <= i < |ts| && ts[i] == '.';
    var ts', body' := ts[..i], ts[i + 1..] + "." + body;
    assert ts == ts[..i] + "." + ts[i + 1..];
    assert Framed(ts', body') == Framed(ts, body);
  }
}
