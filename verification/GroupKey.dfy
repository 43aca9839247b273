// The per-group projection key of a chat presence session.
module GroupKey {
  import opened Common

  datatype GroupId = GroupId(hostRelayUrl: Bytes, localId: Bytes)

  const CHAT_PRESENCE_KEY: string := "nmp.chat.presence"
  const HEX: string := "0123456789abcdef"

  function HexDigit(n: nat): char
    requires n < 16
  {
    if n < 10 then '0' + n as char else 'a' + (n - 10) as char
  }

  lemma HexTable()
    ensures |HEX| == 16 && forall n :: 0 <= n < 16 ==> HEX[n] == HexDigit(n)
  {
  }

  predicate IsHex(c: char)
  {
    '0' <= c <= '9' || 'a' <= c <= 'f'
  }

  function High(b: byte): (c: char)
    ensures IsHex(c)
  {
    HexDigit(b as int / 16)
  }

  function Low(b: byte): (c: char)
    ensures IsHex(c)
  {
    HexDigit(b as int % 16)
  }

  function LowerHex(bytes: Bytes): (hex: string)
    ensures |hex| == 2 * |bytes| && forall i :: 0 <= i < |hex| ==> IsHex(hex[i])
  {
    if bytes == [] then ""
    else LowerHex(bytes[..|bytes| - 1]) + [High(bytes[|bytes| - 1]), Low(bytes[|bytes| - 1])]
  }

  method LowerHexLoop(bytes: Bytes) returns (out: string)
    ensures out == LowerHex(bytes)
  {
    HexTable();
    out := "";
    for i := 0 to |bytes|
      invariant out == LowerHex(bytes[..i])
    {
      assert bytes[..i + 1][..i] == bytes[..i];
      var b := bytes[i] as int;
      out := out + [HEX[b / 16]];
      out := out + [HEX[b % 16]];
    }
    assert bytes[..|bytes|] == bytes;
  }

  // Reading the hex back, the inverse of the loop.
  function HexValue(c: char): (n: nat)
    requires IsHex(c)
    ensures n < 16 && HexDigit(n) == c
  {
    if c <= '9' then (c - '0') as nat else (c - 'a') as nat + 10
  }

  function ByteOf(high: char, low: char): byte
    requires IsHex(high) && IsHex(low)
  {
    (HexValue(high) * 16 + HexValue(low)) as byte
  }

  function FromHex(hex: string): Option<Bytes>
  {
    if hex == "" then Some([])
    else if |hex| == 1 || !IsHex(hex[|hex| - 2]) || !IsHex(hex[|hex| - 1]) then None
    else
      var init := FromHex(hex[..|hex| - 2]);
      if init.None? then None
      else Some(init.value + [ByteOf(hex[|hex| - 2], hex[|hex| - 1])])
  }

  lemma HexDigitsTellApart(a: nat, b: nat)
    requires a < 16 && b < 16 && HexDigit(a) == HexDigit(b)
    ensures a == b
  {
  }

  // Two digits hold one byte.
  lemma ByteRoundTrip(b: byte)
    ensures ByteOf(High(b), Low(b)) == b
  {
    HexDigitsTellApart(HexValue(High(b)), b as int / 16);
    HexDigitsTellApart(HexValue(Low(b)), b as int % 16);
  }

  lemma ReadTwoMore(hex: string, bytes: Bytes, high: char, low: char)
    requires FromHex(hex) == Some(bytes) && IsHex(high) && IsHex(low)
    ensures FromHex(hex + [high, low]) == Some(bytes + [ByteOf(high, low)])
  {
    var more := hex + [high, low];
    assert more[..|more| - 2] == hex && more[|more| - 2] == high && more[|more| - 1] == low;
  }

  lemma ReadOneMore(hex: string, bytes: Bytes, b: byte)
    requires FromHex(hex) == Some(bytes)
    ensures FromHex(hex + [High(b), Low(b)]) == Some(bytes + [b])
  {
    ByteRoundTrip(b);
    ReadTwoMore(hex, bytes, High(b), Low(b));
  }

  lemma HexStep(init: Bytes, last: byte)
    ensures LowerHex(init + [last]) == LowerHex(init) + [High(last), Low(last)]
  {
    assert (init + [last])[..|init|] == init;
  }

  lemma {:induction false} HexRoundTrip(bytes: Bytes)
    ensures FromHex(LowerHex(bytes)) == Some(bytes)
  {
    if bytes != [] {
      var init, last := bytes[..|bytes| - 1], bytes[|bytes| - 1];
      assert bytes == init + [last];
      HexStep(init, last);
      HexRoundTrip(init);
      ReadOneMore(LowerHex(init), init, last);
    }
  }

  function ProjectionKey(g: GroupId): string
  {
    CHAT_PRESENCE_KEY + ".h" + LowerHex(g.hostRelayUrl) + ".g" + LowerHex(g.localId)
  }

  lemma ConcatCancels(prefix: string, a: string, b: string)
    requires prefix + a == prefix + b
    ensures a == b
  {
    assert a == (prefix + a)[|prefix|..] && b == (prefix + b)[|prefix|..];
  }

  // Two hex runs closed by a dot can be told apart from what follows.
  lemma {:induction false} SplitAtDot(a: string, restA: string, b: string, restB: string)
    requires forall i :: 0 <= i < |a| ==> IsHex(a[i])
    requires forall i :: 0 <= i < |b| ==> IsHex(b[i])
    requires a + "." + restA == b + "." + restB
    ensures a == b && restA == restB
  {
    var s := a + "." + restA;
    assert s[|a|] == '.' && s[|b|] == '.';
    assert |a| == |b|;
    assert a == s[..|a|] && b == s[..|a|];
    assert restA == s[|a| + 1..] && restB == s[|a| + 1..];
  }

  // How the key is spelled.
  lemma KeyParts(g: GroupId)
    ensures ProjectionKey(g) == "nmp.chat.presence.h" + (LowerHex(g.hostRelayUrl) + "." + ("g" + LowerHex(g.localId)))
  {
    assert CHAT_PRESENCE_KEY + ".h" == "nmp.chat.presence.h";
    assert ProjectionKey(g) == (CHAT_PRESENCE_KEY + ".h") + (LowerHex(g.hostRelayUrl) + "." + ("g" + LowerHex(g.localId)));
  }

  lemma HexIsInjective(a: Bytes, b: Bytes)
    requires LowerHex(a) == LowerHex(b)
    ensures a == b
  {
    HexRoundTrip(a);
    HexRoundTrip(b);
  }

  // Distinct groups never share a projection key.
  lemma ProjectionKeyIsInjective(g: GroupId, h: GroupId)
    requires ProjectionKey(g) == ProjectionKey(h)
    ensures g == h
  {
    var gh, gl := LowerHex(g.hostRelayUrl), LowerHex(g.localId);
    var hh, hl := LowerHex(h.hostRelayUrl), LowerHex(h.localId);
    KeyParts(g);
    KeyParts(h);
    ConcatCancels("nmp.chat.presence.h", gh + "." + ("g" + gl), hh + "." + ("g" + hl));
    SplitAtDot(gh, "g" + gl, hh, "g" + hl);
    ConcatCancels("g", gl, hl);
    HexIsInjective(g.hostRelayUrl, h.hostRelayUrl);
    HexIsInjective(g.localId, h.localId);
  }

}
