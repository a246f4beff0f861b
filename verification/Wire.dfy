/** Bytes on the wire: little-endian integers, UTF-16 code units and parse results. */
module Wire {

  datatype Option<+T> = None | Some(value: T)

  type byte = b: int | 0 <= b < 0x100
  type u16 = n: int | 0 <= n < 0x1_0000
  type u32 = n: int | 0 <= n < 0x1_0000_0000

  const TWO_32: int := 0x1_0000_0000

  // A UTF-16 code unit, and the WCHAR strings both programs exchange.
  type wchar = u16
  type wstring = seq<wchar>

  /** A parse either fails or yields a value together with the unread suffix. */
  datatype Parsed<+T> = Fail | Ok(value: T, rest: seq<byte>)

  function Le16(x: u16): (b: seq<byte>)
    ensures |b| == 2
  {
    [x % 0x100, x / 0x100]
  }

  // A double word is sent low word first.
  function Le32(x: u32): (b: seq<byte>)
    ensures |b| == 4
  {
    Le16(x % 0x1_0000) + Le16(x / 0x1_0000)
  }

  function Combine(low: int, high: int, base: int): int {
    low + base * high
  }

  function GetU16(s: seq<byte>): Parsed<u16> {
    if |s| >= 2 then Ok(Combine(s[0], s[1], 0x100), s[2..]) else Fail
  }

  function GetU32(s: seq<byte>): Parsed<u32> {
    if |s| >= 4 then Ok(Combine(GetU16(s).value, GetU16(s[2..]).value, 0x1_0000), s[4..]) else Fail
  }

  lemma U16RoundTrip(x: u16, rest: seq<byte>)
    ensures GetU16(Le16(x) + rest) == Ok(x, rest)
  {
    assert (Le16(x) + rest)[2..] == rest;
  }

  lemma U32RoundTrip(x: u32, rest: seq<byte>)
    ensures GetU32(Le32(x) + rest) == Ok(x, rest)
  {
    assert (Le32(x) + rest)[4..] == rest;
    assert (Le32(x) + rest)[2..] == Le16(x / 0x1_0000) + rest;
    assert Le32(x) + rest == Le16(x % 0x1_0000) + (Le16(x / 0x1_0000) + rest);
    U16RoundTrip(x % 0x1_0000, Le16(x / 0x1_0000) + rest);
    U16RoundTrip(x / 0x1_0000, rest);
  }

  // Reading an integer and writing it back gives the bytes that were read.
  lemma U16Rewrite(s: seq<byte>)
    ensures GetU16(s).Ok? ==> s == Le16(GetU16(s).value) + GetU16(s).rest
  {
    if |s| >= 2 {
      assert s == s[..2] + s[2..];
      assert s[..2] == [s[0], s[1]];
    }
  }

  lemma CombineSplits(low: u16, high: u16)
    ensures var x := Combine(low, high, 0x1_0000);
            0 <= x < TWO_32 && x % 0x1_0000 == low && x / 0x1_0000 == high
  {
  }

  lemma U32Rewrite(s: seq<byte>)
    ensures GetU32(s).Ok? ==> s == Le32(GetU32(s).value) + GetU32(s).rest
  {
    hide Combine, Le16;
    if |s| >= 4 {
      U16Rewrite(s);
      U16Rewrite(s[2..]);
      CombineSplits(GetU16(s).value, GetU16(s[2..]).value);
      assert s == Le16(GetU16(s).value) + (Le16(GetU16(s[2..]).value) + s[2..][2..]);
      assert s[2..][2..] == s[4..];
    }
  }

  /** The whole code units held in a byte string; a trailing odd byte is dropped. */
  function WChars(b: seq<byte>): (w: wstring)
    ensures |w| == |b| / 2
  {
    seq(|b| / 2, i requires 0 <= i < |b| / 2 => Combine(b[2 * i], b[2 * i + 1], 0x100))
  }

  function WBytes(w: wstring): (b: seq<byte>)
    ensures |b| == 2 * |w|
  {
    if w == [] then [] else Le16(w[0]) + WBytes(w[1..])
  }

  lemma {:induction false} WBytesAt(w: wstring, i: nat)
    requires i < |w|
    ensures WBytes(w)[2 * i] == w[i] % 0x100 && WBytes(w)[2 * i + 1] == w[i] / 0x100
  {
    if i > 0 {
      WBytesAt(w[1..], i - 1);
      assert w[1..][i - 1] == w[i];
    }
  }

  lemma CombineBytes(low: byte, high: byte)
    ensures var x := Combine(low, high, 0x100);
            0 <= x < 0x1_0000 && x % 0x100 == low && x / 0x100 == high
  {
  }

  // An even-length byte string survives the trip through code units; WCHAR text always does.
  lemma WideRoundTrip(b: seq<byte>)
    requires |b| % 2 == 0
    ensures WBytes(WChars(b)) == b
  {
    hide Combine, WBytes;
    var w := WChars(b);
    forall i | 0 <= i < |w| ensures WBytes(w)[2 * i] == b[2 * i] && WBytes(w)[2 * i + 1] == b[2 * i + 1] {
      WBytesAt(w, i);
      CombineBytes(b[2 * i], b[2 * i + 1]);
    }
    forall k | 0 <= k < |b| ensures WBytes(w)[k] == b[k] {
      assert k == 2 * (k / 2) || k == 2 * (k / 2) + 1;
    }
  }

  lemma TextRoundTrip(w: wstring)
    ensures WChars(WBytes(w)) == w
  {
    forall i | 0 <= i < |w| ensures WChars(WBytes(w))[i] == w[i] {
      WBytesAt(w, i);
    }
  }

  /** The text a wide C string function sees: everything before the first NUL. */
  function CText(w: wstring): (t: wstring)
    ensures t <= w && 0 !in t
    ensures t == w || w[|t|] == 0
  {
    if w == [] || w[0] == 0 then [] else [w[0]] + CText(w[1..])
  }

  // The prefix of a NUL-terminated text is pinned by those two facts.
  lemma CTextUnique(w: wstring, t: wstring)
    requires t <= w && 0 !in t
    requires t == w || w[|t|] == 0
    ensures CText(w) == t
  {
    assert |CText(w)| == |t|;
  }
}
