/**
 What the sender's bytes mean to the receiver: the exact set of PDUs that are accepted, what
 each becomes, and that a parse neither needs nor disturbs the bytes behind it.
 */
module Codec {
  import opened Wire
  import opened Protocol

  // ---- strings and field tables ---------------------------------------------------------

  /** What the receiver stores for a string sent with these bytes. */
  function ReceivedString(s: rail): Field {
    Field(|s|, WChars(s))
  }

  // 510 rather than 512: the receiver keeps room for the terminator it appends.
  predicate StringReadable(s: rail, required: bool) {
    |s| <= MAX_STRING_SIZE - 2 && (required ==> |s| > 0)
  }

  predicate FieldsReadable(flags: u32, vs: seq<Value>) {
    forall v | v in vs && HasFlag(flags, v.bit) :: StringReadable(v.text, v.required)
  }

  function LayoutOf(vs: seq<Value>): (layout: seq<FieldSpec>)
    ensures |layout| == |vs|
    ensures forall i | 0 <= i < |vs| :: layout[i] == FieldSpec(vs[i].bit, vs[i].required)
  {
    if vs == [] then [] else [FieldSpec(vs[0].bit, vs[0].required)] + LayoutOf(vs[1..])
  }

  function ReceivedFields(flags: u32, vs: seq<Value>): (fs: seq<Field>)
    ensures |fs| == |vs|
    ensures forall i | 0 <= i < |vs| ::
      fs[i] == if HasFlag(flags, vs[i].bit) then ReceivedString(vs[i].text) else NoField
  {
    if vs == [] then []
    else [if HasFlag(flags, vs[0].bit) then ReceivedString(vs[0].text) else NoField]
         + ReceivedFields(flags, vs[1..])
  }

  lemma StringRoundTrip(s: rail, required: bool, rest: seq<byte>)
    ensures ParseString(StringBytes(s) + rest, required) ==
            if StringReadable(s, required) then Ok(ReceivedString(s), rest) else Fail
  {
    assert StringBytes(s) + rest == Le16(|s|) + (s + rest);
    U16RoundTrip(|s|, s + rest);
    assert (s + rest)[..|s|] == s && (s + rest)[|s|..] == rest;
  }

  lemma ReadableCons(flags: u32, vs: seq<Value>)
    requires vs != []
    ensures FieldsReadable(flags, vs) <==>
            (HasFlag(flags, vs[0].bit) ==> StringReadable(vs[0].text, vs[0].required)) && FieldsReadable(flags, vs[1..])
  {
    hide Protocol.HasFlag, StringReadable;
    assert vs == [vs[0]] + vs[1..];
  }

  // Reading the first field of a table, whatever the rest of it does.
  lemma FieldsStep(flags: u32, vs: seq<Value>, rest: seq<byte>)
    requires vs != []
    ensures ParseFields(flags, LayoutOf(vs), FieldBytes(flags, vs) + rest) ==
            if HasFlag(flags, vs[0].bit) && !StringReadable(vs[0].text, vs[0].required) then Fail
            else match ParseFields(flags, LayoutOf(vs[1..]), FieldBytes(flags, vs[1..]) + rest)
                 case Fail => Fail
                 case Ok(fs, u) =>
                   Ok([if HasFlag(flags, vs[0].bit) then ReceivedString(vs[0].text) else NoField] + fs, u)
  {
    hide Protocol.HasFlag, Protocol.ParseString, Protocol.StringBytes, StringReadable, ReceivedString;
    var v, more := vs[0], FieldBytes(flags, vs[1..]) + rest;
    assert LayoutOf(vs)[1..] == LayoutOf(vs[1..]);
    if HasFlag(flags, v.bit) {
      StringRoundTrip(v.text, v.required, more);
      assert FieldBytes(flags, vs) + rest == StringBytes(v.text) + more;
    } else {
      assert FieldBytes(flags, vs) + rest == more;
    }
  }

  lemma {:induction false} FieldsRoundTrip(flags: u32, vs: seq<Value>, rest: seq<byte>)
    ensures ParseFields(flags, LayoutOf(vs), FieldBytes(flags, vs) + rest) ==
            if FieldsReadable(flags, vs) then Ok(ReceivedFields(flags, vs), rest) else Fail
  {
    hide Protocol.HasFlag;
    if vs == [] {
      assert FieldBytes(flags, vs) + rest == rest;
    } else {
      hide FieldsReadable, StringReadable, ReceivedString, Protocol.ParseFields, Protocol.FieldBytes, LayoutOf;
      FieldsStep(flags, vs, rest);
      FieldsRoundTrip(flags, vs[1..], rest);
      ReadableCons(flags, vs);
    }
  }

  lemma {:induction false} WordsRoundTrip(ws: seq<u32>, rest: seq<byte>)
    ensures ParseWords(|ws|, WordBytes(ws) + rest) == Ok(ws, rest)
  {
    hide Wire.Le32, Wire.GetU32;
    if ws == [] {
      assert WordBytes(ws) + rest == rest;
    } else {
      WordsRoundTrip(ws[1..], rest);
      U32RoundTrip(ws[0], WordBytes(ws[1..]) + rest);
      assert WordBytes(ws) + rest == Le32(ws[0]) + (WordBytes(ws[1..]) + rest);
      assert ws == [ws[0]] + ws[1..];
    }
  }

  lemma IconRoundTrip(icon: IconData, rest: seq<byte>)
    ensures ParseIcon(IconBytes(icon) + rest, true) ==
            if ICON_FILE_HEADERS + |icon.bits| < TWO_32 then Ok(icon, rest) else Fail
  {
    hide Protocol.WordBytes, Protocol.ParseWords;
    var t := icon.bits + rest;
    assert IconBytes(icon) + rest == WordBytes(IconWords(icon)) + t;
    WordsRoundTrip(IconWords(icon), t);
    assert t[..|icon.bits|] == icon.bits && t[|icon.bits|..] == rest;
  }

  // ---- the bytes themselves -------------------------------------------------------------

  lemma HalveFlag(flags: u32, low: flag)
    ensures HasFlag(flags, 2 * low) == HasFlag(flags / 2, low)
  {
  }

  lemma FirstBit(flags: u32)
    ensures HasFlag(flags, 1) <==> flags % 2 == 1
  {
  }

  /** The flags are the bits the protocol numbers. */
  lemma FieldFlags(flags: u32)
    ensures HasFlag(flags, FIELD_ID) <==> flags % 2 == 1
    ensures HasFlag(flags, FIELD_GROUP) <==> flags / 2 % 2 == 1
    ensures HasFlag(flags, FIELD_EXECPATH) <==> flags / 4 % 2 == 1
    ensures HasFlag(flags, FIELD_DESC) <==> flags / 8 % 2 == 1
    ensures HasFlag(flags, FIELD_ICON) <==> flags / 16 % 2 == 1
    ensures HasFlag(flags, FIELD_PROVIDER) <==> flags / 32 % 2 == 1
    ensures HasFlag(flags, FIELD_WORKINGDIR) <==> flags / 64 % 2 == 1
    ensures HasFlag(flags, FIELD_WINDOW_ID) <==> flags / 128 % 2 == 1
  {
    hide Protocol.HasFlag;
    FirstBit(flags);
    LowFlags(flags);
    LowFlags(flags / 16);
    Sixteenth(flags, 1);
    Sixteenth(flags, 2);
    Sixteenth(flags, 4);
    Sixteenth(flags, 8);
    FirstBit(flags / 16);
    assert flags / 16 / 2 == flags / 32 && flags / 16 / 4 == flags / 64 && flags / 16 / 8 == flags / 128;
  }

  lemma LowFlags(flags: u32)
    ensures HasFlag(flags, 2) <==> flags / 2 % 2 == 1
    ensures HasFlag(flags, 4) <==> flags / 4 % 2 == 1
    ensures HasFlag(flags, 8) <==> flags / 8 % 2 == 1
  {
    hide Protocol.HasFlag;
    HalveFlag(flags, 1);
    HalveFlag(flags, 2);
    HalveFlag(flags / 2, 1);
    HalveFlag(flags, 4);
    HalveFlag(flags / 2, 2);
    HalveFlag(flags / 2 / 2, 1);
    FirstBit(flags / 2);
    FirstBit(flags / 2 / 2);
    FirstBit(flags / 2 / 2 / 2);
    assert flags / 2 / 2 == flags / 4 && flags / 2 / 2 / 2 == flags / 8;
  }

  lemma Sixteenth(flags: u32, low: flag)
    ensures HasFlag(flags, 16 * low) == HasFlag(flags / 16, low)
  {
    hide Protocol.HasFlag;
    HalveFlag(flags, 8 * low);
    HalveFlag(flags / 2, 4 * low);
    HalveFlag(flags / 2 / 2, 2 * low);
    HalveFlag(flags / 2 / 2 / 2, low);
    assert flags / 2 / 2 / 2 / 2 == flags / 16;
  }

  /** Words and double words go out low byte first. */
  lemma LittleEndian(x: u32)
    ensures Le32(x) == [x % 0x100, x / 0x100 % 0x100, x / 0x1_0000 % 0x100, x / 0x100_0000]
    ensures x < 0x1_0000 ==> Le16(x) == [x % 0x100, x / 0x100]
  {
    var low, high := x % 0x1_0000, x / 0x1_0000;
    var a, b, c, d := low % 0x100, low / 0x100, high % 0x100, high / 0x100;
    assert Le32(x) == [a, b, c, d];
    assert x == a + 0x100 * (b + 0x100 * c + 0x1_0000 * d);
    ByteSplit(x, b + 0x100 * c + 0x1_0000 * d, a);
    ByteSplit(b + 0x100 * c + 0x1_0000 * d, c + 0x100 * d, b);
    TopByte(x, d, a + 0x100 * b + 0x1_0000 * c);
  }

  lemma ByteSplit(x: int, q: int, r: int)
    requires x == r + 0x100 * q && 0 <= r < 0x100
    ensures x / 0x100 == q && x % 0x100 == r
  {
  }

  lemma TopByte(x: int, q: int, r: int)
    requires x == r + 0x100_0000 * q && 0 <= r < 0x100_0000
    ensures x / 0x100_0000 == q
  {
  }

  /** In front of every body: the command id in one byte and three zeros, then the length of the whole. */
  lemma HeaderOnTheWire(p: Pdu)
    ensures Encode(p) == [CmdId(p), 0, 0, 0] + Le32((8 + |Body(p)|) % TWO_32) + Body(p)
  {
    hide Protocol.Body;
    LittleEndian(CmdId(p));
    assert 1 <= CmdId(p) <= 5;
    assert Le32(CmdId(p)) == [CmdId(p), 0, 0, 0];
    hide Wire.Le32;
  }

  /** A string that is sent if its bit is set. */
  function Optional(present: bool, s: rail): seq<byte> {
    if present then Le16(|s|) + s else []
  }

  lemma OneField(flags: u32, v: Value, rest: seq<Value>)
    ensures FieldBytes(flags, [v] + rest) == Optional(HasFlag(flags, v.bit), v.text) + FieldBytes(flags, rest)
    ensures FieldBytes(flags, [v]) == Optional(HasFlag(flags, v.bit), v.text)
  {
    hide Protocol.HasFlag, Wire.Le16;
    assert ([v] + rest)[1..] == rest && [v][1..] == [];
  }

  /** The body of an UPDATE: flags, the five strings in the protocol's order, the icon. */
  lemma UpdateOnTheWire(p: Pdu)
    requires p.Update? && Sendable(p)
    ensures CmdId(p) == 2
    ensures Body(p) == Le32(p.flags) + (
              Optional(p.flags % 2 == 1, p.appId) + (Optional(p.flags / 2 % 2 == 1, p.appGroup) +
              (Optional(p.flags / 4 % 2 == 1, p.appExecPath) + (Optional(p.flags / 64 % 2 == 1, p.appWorkingDir) +
              Optional(p.flags / 8 % 2 == 1, p.appDesc)))) +
              (if p.flags / 16 % 2 == 1 then IconBytes(p.appIcon.value) else []))
  {
    FieldFlags(p.flags);
    hide Protocol.HasFlag, Wire.Le32, Wire.Le16, Optional, Protocol.FieldBytes, Protocol.IconBytes;
    var vs := Strings(p);
    assert vs == [vs[0]] + ([vs[1]] + ([vs[2]] + ([vs[3]] + [vs[4]])));
    OneField(p.flags, vs[0], [vs[1]] + ([vs[2]] + ([vs[3]] + [vs[4]])));
    OneField(p.flags, vs[1], [vs[2]] + ([vs[3]] + [vs[4]]));
    OneField(p.flags, vs[2], [vs[3]] + [vs[4]]);
    OneField(p.flags, vs[3], [vs[4]]);
    OneField(p.flags, vs[4], []);
  }

  /** The body of an ASSOCIATE: flags, the window, then its four strings. */
  lemma AssociateOnTheWire(p: Pdu)
    requires p.Associate?
    ensures CmdId(p) == 5
    ensures Body(p) == Le32(p.flags) + (Le32(p.appWindowId) + (
              Optional(p.flags % 2 == 1, p.appId) + (Optional(p.flags / 2 % 2 == 1, p.appGroup) +
              (Optional(p.flags / 4 % 2 == 1, p.appExecPath) + Optional(p.flags / 8 % 2 == 1, p.appDesc)))))
  {
    FieldFlags(p.flags);
    hide Protocol.HasFlag, Wire.Le32, Wire.Le16, Optional, Protocol.FieldBytes;
    var vs := Strings(p);
    assert vs == [vs[0]] + ([vs[1]] + ([vs[2]] + [vs[3]]));
    OneField(p.flags, vs[0], [vs[1]] + ([vs[2]] + [vs[3]]));
    OneField(p.flags, vs[1], [vs[2]] + [vs[3]]);
    OneField(p.flags, vs[2], [vs[3]]);
    OneField(p.flags, vs[3], []);
  }

  /** DELETE, DELETE_APPLIST_PROVIDER and CAPS. */
  lemma OthersOnTheWire(p: Pdu)
    ensures p.Delete? ==> CmdId(p) == 3
    ensures p.Delete? ==>
      Body(p) == Le32(p.flags) + (Optional(p.flags % 2 == 1, p.appId) + Optional(p.flags / 2 % 2 == 1, p.appGroup))
    ensures p.DeleteProvider? ==> CmdId(p) == 4 && Body(p) == Le32(p.flags) + Optional(p.flags / 32 % 2 == 1, p.name)
    ensures p.Caps? ==> CmdId(p) == 1
    ensures p.Caps? ==>
      Body(p) == Le16(p.version) + (Le16(|p.name|) + p.name + (Le16(|p.uniqueId|) + p.uniqueId))
  {
    if !p.Caps? {
      FieldFlags(p.flags);
    }
    hide Protocol.HasFlag, Wire.Le32, Wire.Le16, Optional, Protocol.FieldBytes;
    if p.Delete? || p.DeleteProvider? {
      var vs := Strings(p);
      if p.Delete? {
        assert vs == [vs[0]] + [vs[1]];
        OneField(p.flags, vs[0], [vs[1]]);
        OneField(p.flags, vs[1], []);
      } else {
        OneField(p.flags, vs[0], []);
      }
    }
  }

  /** The icon: seven words, the last of them the number of bytes, then the bytes. */
  lemma IconOnTheWire(i: IconData)
    ensures IconBytes(i) == Le32(i.flags) + (Le32(i.width) + (Le32(i.height) + (Le32(i.stride) + (Le32(i.bpp) +
                            (Le32(i.format) + (Le32(|i.bits|) + i.bits))))))
  {
    hide Wire.Le32;
    var w := IconWords(i);
    WordsOnTheWire(w[0], w[1..]);
    WordsOnTheWire(w[1], w[2..]);
    WordsOnTheWire(w[2], w[3..]);
    WordsOnTheWire(w[3], w[4..]);
    WordsOnTheWire(w[4], w[5..]);
    WordsOnTheWire(w[5], w[6..]);
    WordsOnTheWire(w[6], []);
    assert w == [w[0]] + w[1..] && w[1..] == [w[1]] + w[2..] && w[2..] == [w[2]] + w[3..] && w[3..] == [w[3]] + w[4..];
    assert w[4..] == [w[4]] + w[5..] && w[5..] == [w[5]] + w[6..] && w[6..] == [w[6]] + [];
  }

  lemma WordsOnTheWire(w: u32, rest: seq<u32>)
    ensures WordBytes([w] + rest) == Le32(w) + WordBytes(rest)
  {
    assert ([w] + rest)[1..] == rest;
  }

  // ---- the exact accepted language ------------------------------------------------------

  /** Which PDUs of the sender the receiver's decoder accepts. */
  predicate Receivable(p: Pdu) {
    match p
    case Caps(version, name, uniqueId) =>
      StringReadable(name, true) && (version >= 4 ==> StringReadable(uniqueId, true))
    case Update(flags, _, _, _, _, _, icon) =>
      HasFlag(flags, FIELD_ID) && HasFlag(flags, FIELD_EXECPATH) && HasFlag(flags, FIELD_DESC) &&
      FieldsReadable(flags, Strings(p)) &&
      (HasFlag(flags, FIELD_ICON) && icon.Some? ==> ICON_FILE_HEADERS + |icon.value.bits| < TWO_32)
    case Delete(flags, _, _) => HasFlag(flags, FIELD_ID) && FieldsReadable(flags, Strings(p))
    case Associate(flags, _, _, _, _, _) =>
      HasFlag(flags, FIELD_ID) && HasFlag(flags, FIELD_WINDOW_ID) && FieldsReadable(flags, Strings(p))
    case DeleteProvider(_, _) => false
  }

  /** The message an accepted PDU becomes. */
  function Received(p: Pdu): Msg
    requires !p.DeleteProvider?
  {
    match p
    case Caps(version, name, uniqueId) =>
      CapsMsg(version, ReceivedString(name), if version >= 4 then ReceivedString(uniqueId) else NoField)
    case Update(flags, _, _, _, _, _, icon) =>
      var f := ReceivedFields(flags, Strings(p));
      UpdateMsg(flags, f[0], f[1], f[2], f[3], f[4], if HasFlag(flags, FIELD_ICON) then icon else None)
    case Delete(flags, _, _) =>
      var f := ReceivedFields(flags, Strings(p));
      DeleteMsg(flags, f[0], f[1])
    case Associate(flags, windowId, _, _, _, _) =>
      var f := ReceivedFields(flags, Strings(p));
      AssociateMsg(flags, windowId, f[0], f[1], f[2], f[3])
  }

  /** The unique id is sent whatever the version and read only from version 4 on. */
  function Leftover(p: Pdu): seq<byte> {
    if p.Caps? && p.version < 4 then StringBytes(p.uniqueId) else []
  }

  lemma CapsLanguage(p: Pdu, rest: seq<byte>)
    requires p.Caps?
    ensures ParseCaps(Body(p) + rest) ==
            if Receivable(p) then Ok(Received(p), Leftover(p) + rest) else Fail
  {
    hide Wire.Le16, Wire.GetU16, Protocol.ParseString, Protocol.StringBytes, StringReadable, ReceivedString;
    var t2 := StringBytes(p.uniqueId) + rest;
    var t1 := StringBytes(p.name) + t2;
    assert Body(p) + rest == Le16(p.version) + t1;
    U16RoundTrip(p.version, t1);
    StringRoundTrip(p.name, true, t2);
    StringRoundTrip(p.uniqueId, true, rest);
    if p.version >= 4 {
      assert Leftover(p) + rest == rest;
    }
  }

  lemma UpdateLanguage(p: Pdu, rest: seq<byte>)
    requires p.Update? && Sendable(p)
    ensures ParseUpdate(Body(p) + rest, true) == if Receivable(p) then Ok(Received(p), rest) else Fail
  {
    hide Wire.Le32, Wire.GetU32, Protocol.HasFlag, Protocol.ParseIcon, Protocol.ParseFields, Protocol.FieldBytes,
         FieldsReadable;
    var icon := IconPart(p.flags, p.appIcon);
    var t1 := FieldBytes(p.flags, Strings(p)) + (icon + rest);
    assert Body(p) + rest == Le32(p.flags) + t1;
    U32RoundTrip(p.flags, t1);
    FieldsRoundTrip(p.flags, Strings(p), icon + rest);
    assert LayoutOf(Strings(p)) == UPDATE_LAYOUT;
    if HasFlag(p.flags, FIELD_ICON) {
      IconRoundTrip(p.appIcon.value, rest);
    } else {
      assert icon + rest == rest;
    }
  }

  lemma DeleteLanguage(p: Pdu, rest: seq<byte>)
    requires p.Delete?
    ensures ParseDelete(Body(p) + rest) == if Receivable(p) then Ok(Received(p), rest) else Fail
  {
    hide Wire.Le32, Wire.GetU32, Protocol.HasFlag, Protocol.ParseFields, Protocol.FieldBytes, FieldsReadable;
    var t1 := FieldBytes(p.flags, Strings(p)) + rest;
    assert Body(p) + rest == Le32(p.flags) + t1;
    U32RoundTrip(p.flags, t1);
    FieldsRoundTrip(p.flags, Strings(p), rest);
    assert LayoutOf(Strings(p)) == DELETE_LAYOUT;
  }

  lemma AssociateLanguage(p: Pdu, rest: seq<byte>)
    requires p.Associate?
    ensures ParseAssociate(Body(p) + rest) == if Receivable(p) then Ok(Received(p), rest) else Fail
  {
    hide Wire.Le32, Wire.GetU32, Protocol.HasFlag, Protocol.ParseFields, Protocol.FieldBytes, FieldsReadable;
    var t2 := FieldBytes(p.flags, Strings(p)) + rest;
    var t1 := Le32(p.appWindowId) + t2;
    assert Body(p) + rest == Le32(p.flags) + t1;
    U32RoundTrip(p.flags, t1);
    U32RoundTrip(p.appWindowId, t2);
    FieldsRoundTrip(p.flags, Strings(p), rest);
    assert LayoutOf(Strings(p)) == ASSOCIATE_LAYOUT;
  }

  /**
   The decoder accepts what the sender emits exactly when Receivable holds, and then leaves
   the bytes behind the body (and, before version 4, the unique id) unread.
   */
  lemma AcceptedLanguage(p: Pdu, rest: seq<byte>)
    requires Sendable(p)
    ensures ParseBody(CmdId(p), Body(p) + rest, true) ==
            if Receivable(p) then Ok(Received(p), Leftover(p) + rest) else Fail
  {
    assert !p.Caps? ==> Leftover(p) + rest == rest;
    match p
    case Caps(_, _, _) => CapsLanguage(p, rest);
    case Update(_, _, _, _, _, _, _) => UpdateLanguage(p, rest);
    case Delete(_, _, _) => DeleteLanguage(p, rest);
    case Associate(_, _, _, _, _, _) => AssociateLanguage(p, rest);
    case DeleteProvider(_, _) =>
  }

  // The flags the receiver insists on, whatever the sender says about them.
  predicate FlagsComplete(p: Pdu) {
    match p
    case Update(flags, _, _, _, _, _, _) => HasFlag(flags, FIELD_ID) && HasFlag(flags, FIELD_EXECPATH) && HasFlag(flags, FIELD_DESC)
    case Delete(flags, _, _) => HasFlag(flags, FIELD_ID)
    case Associate(flags, _, _, _, _, _) => HasFlag(flags, FIELD_ID) && HasFlag(flags, FIELD_WINDOW_ID)
    case _ => true
  }

  // One string that passes the sender's check and fails the receiver's.
  predicate InGap(v: Value) {
    |v.text| == MAX_STRING_SIZE - 1 || |v.text| == MAX_STRING_SIZE || (v.required && v.text == [])
  }

  /**
   The gap between the two sides: a PDU the sender lets pass is refused by the receiver exactly
   for a missing required flag, a present string of 511 or 512 bytes, a required one that is
   empty, an icon whose file would reach 2^32 bytes, or a unique id that is empty or longer than
   510 bytes, which the sender does not check at all.
   */
  lemma SendableButNotReceivable(p: Pdu)
    requires Sendable(p) && !p.DeleteProvider?
    ensures !Receivable(p) <==>
            match p
            case Caps(version, name, uniqueId) =>
              InGap(Value(FIELD_PROVIDER, true, name)) || (version >= 4 && !(0 < |uniqueId| <= MAX_STRING_SIZE - 2))
            case Update(flags, _, _, _, _, _, icon) =>
              || !FlagsComplete(p)
              || (exists v :: v in Strings(p) && HasFlag(flags, v.bit) && InGap(v))
              || (HasFlag(flags, FIELD_ICON) && ICON_FILE_HEADERS + |icon.value.bits| >= TWO_32)
            case _ => !FlagsComplete(p) || exists v :: v in Strings(p) && HasFlag(p.flags, v.bit) && InGap(v)
  {
    hide Protocol.HasFlag, Protocol.Strings;
    if !p.Caps? {
      GapOfFields(p.flags, Strings(p));
    }
  }

  lemma GapOfFields(flags: u32, vs: seq<Value>)
    requires FieldsSendable(flags, vs)
    ensures !FieldsReadable(flags, vs) <==> exists v :: v in vs && HasFlag(flags, v.bit) && InGap(v)
  {
    hide Protocol.HasFlag;
    if !FieldsReadable(flags, vs) {
      var v :| v in vs && HasFlag(flags, v.bit) && !StringReadable(v.text, v.required);
      assert InGap(v);
    }
  }

  // ---- framing without the length field -------------------------------------------------

  lemma HeaderRoundTrip(p: Pdu, rest: seq<byte>)
    ensures ParseHeader(Encode(p) + rest) ==
            Ok(Header(CmdId(p), (HEADER_SIZE + |Body(p)|) % TWO_32), Body(p) + rest)
  {
    var length: u32 := (HEADER_SIZE + |Body(p)|) % TWO_32;
    var t2 := Body(p) + rest;
    assert Encode(p) + rest == Le32(CmdId(p)) + (Le32(length) + t2);
    U32RoundTrip(CmdId(p), Le32(length) + t2);
    U32RoundTrip(length, t2);
  }

  /** Decode a whole buffer the way the receiver's loop frames it: header, then body. */
  function DecodeAll(s: seq<byte>): Parsed<seq<Msg>>
    decreases |s|
  {
    if s == [] then Ok([], s)
    else
      match ParseHeader(s) case Fail => Fail case Ok(h, t) =>
      match ParseBody(h.cmdId, t, true) case Fail => Fail case Ok(m, u) =>
      match DecodeAll(u) case Fail => Fail case Ok(ms, v) =>
      Ok([m] + ms, v)
  }

  function ReceivedAll(ps: seq<Pdu>): (ms: seq<Msg>)
    requires forall p | p in ps :: !p.DeleteProvider?
    ensures |ms| == |ps|
  {
    if ps == [] then [] else [Received(ps[0])] + ReceivedAll(ps[1..])
  }

  // Framed: sendable, receivable, and read to its last byte.
  predicate Framed(p: Pdu) {
    Sendable(p) && Receivable(p) && (p.Caps? ==> p.version >= 4)
  }

  /** Every list of framed PDUs survives concatenation, whatever the length fields say. */
  lemma {:induction false} StreamRoundTrip(ps: seq<Pdu>)
    requires forall p | p in ps :: Framed(p)
    ensures forall p | p in ps :: !p.DeleteProvider?
    ensures DecodeAll(EncodeAll(ps)) == Ok(ReceivedAll(ps), [])
  {
    hide Protocol.ParseBody, Protocol.ParseHeader, Protocol.Encode, Received, Protocol.Body, FieldsReadable, Protocol.HasFlag, StringReadable;
    if ps != [] {
      var p, rest := ps[0], EncodeAll(ps[1..]);
      StreamRoundTrip(ps[1..]);
      assert p in ps && Framed(p);
      HeaderRoundTrip(p, rest);
      AcceptedLanguage(p, rest);
      assert Leftover(p) + rest == rest;
      assert |Encode(p)| > 0;
    }
  }

  // ---- a parse is not disturbed by more bytes -------------------------------------------

  lemma U16Extend(s: seq<byte>, t: seq<byte>)
    ensures GetU16(s).Ok? ==> GetU16(s + t) == GetU16(s).(rest := GetU16(s).rest + t)
  {
    if |s| >= 2 {
      assert (s + t)[2..] == s[2..] + t;
    }
  }

  lemma U32Extend(s: seq<byte>, t: seq<byte>)
    ensures GetU32(s).Ok? ==> GetU32(s + t) == GetU32(s).(rest := GetU32(s).rest + t)
  {
    if |s| >= 4 {
      assert (s + t)[4..] == s[4..] + t;
      assert (s + t)[2..] == s[2..] + t;
      U16Extend(s, t);
      U16Extend(s[2..], t);
    }
  }

  lemma StringExtend(s: seq<byte>, t: seq<byte>, required: bool)
    ensures ParseString(s, required).Ok? ==>
            ParseString(s + t, required) == ParseString(s, required).(rest := ParseString(s, required).rest + t)
  {
    U16Extend(s, t);
    if GetU16(s).Ok? {
      var n, u := GetU16(s).value, GetU16(s).rest;
      if |u| >= n {
        assert (u + t)[..n] == u[..n] && (u + t)[n..] == u[n..] + t;
      }
    }
  }

  lemma {:induction false} FieldsExtend(flags: u32, layout: seq<FieldSpec>, s: seq<byte>, t: seq<byte>)
    ensures var r := ParseFields(flags, layout, s);
            r.Ok? ==> ParseFields(flags, layout, s + t) == r.(rest := r.rest + t)
  {
    if layout != [] {
      StringExtend(s, t, layout[0].required);
      if !HasFlag(flags, layout[0].bit) {
        FieldsExtend(flags, layout[1..], s, t);
      } else if ParseString(s, layout[0].required).Ok? {
        FieldsExtend(flags, layout[1..], ParseString(s, layout[0].required).rest, t);
      }
    }
  }

  lemma {:induction false} WordsExtend(n: nat, s: seq<byte>, t: seq<byte>)
    ensures var r := ParseWords(n, s);
            r.Ok? ==> ParseWords(n, s + t) == r.(rest := r.rest + t)
  {
    hide Wire.GetU32;
    if n > 0 && GetU32(s).Ok? {
      U32Extend(s, t);
      WordsExtend(n - 1, GetU32(s).rest, t);
    }
  }

  lemma IconExtend(s: seq<byte>, t: seq<byte>, allocOk: bool)
    ensures var r := ParseIcon(s, allocOk);
            r.Ok? ==> ParseIcon(s + t, allocOk) == r.(rest := r.rest + t)
  {
    hide Protocol.ParseWords;
    WordsExtend(7, s, t);
    var w := ParseWords(7, s);
    if ParseIcon(s, allocOk).Ok? {
      var n := w.value[6];
      assert (w.rest + t)[..n] == w.rest[..n] && (w.rest + t)[n..] == w.rest[n..] + t;
    }
  }

  lemma CapsExtend(s: seq<byte>, t: seq<byte>)
    ensures ParseCaps(s).Ok? ==> ParseCaps(s + t) == ParseCaps(s).(rest := ParseCaps(s).rest + t)
  {
    if ParseCaps(s).Ok? {
      U16Extend(s, t);
      var s1 := GetU16(s).rest;
      StringExtend(s1, t, true);
      StringExtend(ParseString(s1, true).rest, t, true);
    }
  }

  lemma UpdateExtend(s: seq<byte>, t: seq<byte>, allocOk: bool)
    ensures var r := ParseUpdate(s, allocOk);
            r.Ok? ==> ParseUpdate(s + t, allocOk) == r.(rest := r.rest + t)
  {
    if ParseUpdate(s, allocOk).Ok? {
      U32Extend(s, t);
      var flags, s1 := GetU32(s).value, GetU32(s).rest;
      FieldsExtend(flags, UPDATE_LAYOUT, s1, t);
      IconExtend(ParseFields(flags, UPDATE_LAYOUT, s1).rest, t, allocOk);
    }
  }

  lemma AssociateExtend(s: seq<byte>, t: seq<byte>)
    ensures var r := ParseAssociate(s);
            r.Ok? ==> ParseAssociate(s + t) == r.(rest := r.rest + t)
  {
    if ParseAssociate(s).Ok? {
      U32Extend(s, t);
      var s1 := GetU32(s).rest;
      U32Extend(s1, t);
      FieldsExtend(GetU32(s).value, ASSOCIATE_LAYOUT, GetU32(s1).rest, t);
    }
  }

  lemma DeleteExtend(s: seq<byte>, t: seq<byte>)
    ensures var r := ParseDelete(s);
            r.Ok? ==> ParseDelete(s + t) == r.(rest := r.rest + t)
  {
    hide Wire.GetU32, Protocol.HasFlag, Protocol.ParseFields;
    if ParseDelete(s).Ok? {
      U32Extend(s, t);
      FieldsExtend(GetU32(s).value, DELETE_LAYOUT, GetU32(s).rest, t);
    }
  }

  /** An accepted body is accepted in front of any further bytes, with the same value. */
  lemma BodyExtend(cmdId: u32, s: seq<byte>, t: seq<byte>, allocOk: bool)
    ensures var r := ParseBody(cmdId, s, allocOk);
            r.Ok? ==> ParseBody(cmdId, s + t, allocOk) == r.(rest := r.rest + t)
  {
    hide Protocol.ParseCaps, Protocol.ParseUpdate, Protocol.ParseDelete, Protocol.ParseAssociate;
    CapsExtend(s, t);
    UpdateExtend(s, t, allocOk);
    DeleteExtend(s, t);
    AssociateExtend(s, t);
  }

  lemma HeaderExtend(s: seq<byte>, t: seq<byte>)
    ensures var r := ParseHeader(s);
            r.Ok? ==> ParseHeader(s + t) == r.(rest := r.rest + t)
  {
    if ParseHeader(s).Ok? {
      U32Extend(s, t);
      U32Extend(GetU32(s).rest, t);
    }
  }

  // ---- re-encoding what was accepted ----------------------------------------------------

  predicate EvenField(f: Field) { f.length % 2 == 0 }

  /** The bytes a stored string would be sent with. */
  function Resent(f: Field): rail
    requires Storable(f)
  {
    WBytes(f.text)
  }

  predicate Storable(f: Field) { |f.text| == f.length / 2 }

  predicate AllStorable(fs: seq<Field>) {
    forall i | 0 <= i < |fs| :: Storable(fs[i])
  }

  predicate AllEven(fs: seq<Field>) {
    forall i | 0 <= i < |fs| :: EvenField(fs[i])
  }

  function ResentValues(layout: seq<FieldSpec>, fs: seq<Field>): (vs: seq<Value>)
    requires |layout| == |fs| && AllStorable(fs)
    ensures |vs| == |fs|
    ensures forall i | 0 <= i < |fs| :: vs[i] == Value(layout[i].bit, layout[i].required, Resent(fs[i]))
  {
    if fs == [] then []
    else [Value(layout[0].bit, layout[0].required, Resent(fs[0]))] + ResentValues(layout[1..], fs[1..])
  }

  lemma StringReencode(s: seq<byte>, required: bool)
    ensures var r := ParseString(s, required);
            r.Ok? ==> Storable(r.value) && (EvenField(r.value) ==> s == StringBytes(Resent(r.value)) + r.rest)
  {
    hide Wire.GetU16, Wire.Le16, Wire.WBytes, Wire.WChars;
    U16Rewrite(s);
    var r := ParseString(s, required);
    if r.Ok? {
      var n, t := GetU16(s).value, GetU16(s).rest;
      assert t[..0] == [] && t[0..] == t;
      assert WChars([]) == [];
      assert r == Ok(Field(n, WChars(t[..n])), t[n..]);
      if n % 2 == 0 {
        WideRoundTrip(t[..n]);
        assert s == Le16(n) + (t[..n] + t[n..]);
      }
    }
  }

  lemma {:induction false} FieldsReencode(flags: u32, layout: seq<FieldSpec>, s: seq<byte>)
    ensures var r := ParseFields(flags, layout, s);
            r.Ok? ==> AllStorable(r.value) &&
                      (AllEven(r.value) ==> s == FieldBytes(flags, ResentValues(layout, r.value)) + r.rest)
  {
    hide Protocol.HasFlag, Protocol.ParseString, Protocol.StringBytes, Resent, Storable;
    var r := ParseFields(flags, layout, s);
    if layout == [] {
      assert s == [] + s;
    } else if r.Ok? {
      var spec := layout[0];
      var first := if HasFlag(flags, spec.bit) then ParseString(s, spec.required) else Ok(NoField, s);
      StringReencode(s, spec.required);
      NoFieldStorable();
      FieldsReencode(flags, layout[1..], first.rest);
      var more := ParseFields(flags, layout[1..], first.rest);
      assert r.value == [first.value] + more.value;
      FieldsReencodeStep(flags, layout, s, first, more);
    }
  }

  lemma NoFieldStorable()
    ensures Storable(NoField) && EvenField(NoField)
  {
  }

  lemma FieldsReencodeStep(flags: u32, layout: seq<FieldSpec>, s: seq<byte>, first: Parsed<Field>,
                           more: Parsed<seq<Field>>)
    requires layout != [] && first.Ok? && more.Ok? && |more.value| == |layout| - 1
    requires Storable(first.value) && AllStorable(more.value)
    requires if HasFlag(flags, layout[0].bit)
             then EvenField(first.value) ==> s == StringBytes(Resent(first.value)) + first.rest
             else s == first.rest
    requires AllEven(more.value) ==> first.rest == FieldBytes(flags, ResentValues(layout[1..], more.value)) + more.rest
    ensures var fs := [first.value] + more.value;
            AllStorable(fs) && (AllEven(fs) ==> s == FieldBytes(flags, ResentValues(layout, fs)) + more.rest)
  {
    hide Protocol.HasFlag, Protocol.StringBytes, Resent, Storable, EvenField;
    var fs := [first.value] + more.value;
    assert fs[1..] == more.value;
    forall i | 0 <= i < |fs| ensures Storable(fs[i]) {
      assert i > 0 ==> fs[i] == more.value[i - 1];
    }
    if AllEven(fs) {
      assert EvenField(fs[0]);
      forall i | 0 <= i < |more.value| ensures EvenField(more.value[i]) {
        assert more.value[i] == fs[i + 1];
      }
      var vs := ResentValues(layout, fs);
      assert vs[1..] == ResentValues(layout[1..], more.value);
      if HasFlag(flags, layout[0].bit) {
        assert FieldBytes(flags, vs) == StringBytes(vs[0].text) + FieldBytes(flags, vs[1..]);
        assert s == StringBytes(vs[0].text) + (FieldBytes(flags, vs[1..]) + more.rest);
      } else {
        assert FieldBytes(flags, vs) == [] + FieldBytes(flags, vs[1..]);
      }
    }
  }

  lemma {:induction false} WordsReencode(n: nat, s: seq<byte>)
    ensures var r := ParseWords(n, s);
            r.Ok? ==> s == WordBytes(r.value) + r.rest
  {
    hide Wire.Le32, Wire.GetU32;
    var r := ParseWords(n, s);
    if n == 0 {
      assert s == [] + s;
    } else if r.Ok? {
      U32Rewrite(s);
      WordsReencode(n - 1, GetU32(s).rest);
      assert r.value[1..] == ParseWords(n - 1, GetU32(s).rest).value;
      assert s == Le32(r.value[0]) + (WordBytes(r.value[1..]) + r.rest);
    }
  }

  lemma IconReencode(s: seq<byte>)
    ensures var r := ParseIcon(s, true);
            r.Ok? ==> s == IconBytes(r.value) + r.rest
  {
    hide Protocol.ParseWords, Protocol.WordBytes;
    var r := ParseIcon(s, true);
    if r.Ok? {
      WordsReencode(7, s);
      var w := ParseWords(7, s);
      assert w.rest == r.value.bits + r.rest;
      assert IconWords(r.value) == w.value;
      assert s == WordBytes(w.value) + (r.value.bits + r.rest);
    }
  }

  /** The PDU whose transmission would give this message. */
  function Resend(m: Msg): Pdu
    requires AllStorable(Fields(m))
  {
    var f := Fields(m);
    match m
    case CapsMsg(version, _, _) => Caps(version, Resent(f[0]), Resent(f[1]))
    case UpdateMsg(flags, _, _, _, _, _, icon) =>
      Update(flags, Resent(f[0]), Resent(f[1]), Resent(f[2]), Resent(f[3]), Resent(f[4]), icon)
    case DeleteMsg(flags, _, _) => Delete(flags, Resent(f[0]), Resent(f[1]))
    case AssociateMsg(flags, windowId, _, _, _, _) =>
      Associate(flags, windowId, Resent(f[0]), Resent(f[1]), Resent(f[2]), Resent(f[3]))
  }

  function Fields(m: Msg): seq<Field> {
    match m
    case CapsMsg(_, name, uniqueId) => [name, uniqueId]
    case UpdateMsg(_, id, group, exec, dir, desc, _) => [id, group, exec, dir, desc]
    case DeleteMsg(_, id, group) => [id, group]
    case AssociateMsg(_, _, id, group, exec, desc) => [id, group, exec, desc]
  }

  lemma ResentUpdate(m: Msg)
    requires m.UpdateMsg? && AllStorable(Fields(m))
    ensures var p := Resend(m);
            p.Update? && p.flags == m.flags && p.appIcon == m.icon && Strings(p) == ResentValues(UPDATE_LAYOUT, Fields(m))
  {
    hide Resent;
  }

  lemma Regroup(a: seq<byte>, b: seq<byte>, c: seq<byte>, d: seq<byte>)
    ensures (a + (b + c)) + d == a + (b + (c + d))
  {
  }

  // The body of an update that was received, from its flags on.
  lemma UpdateBody(m: Msg, rest: seq<byte>)
    requires m.UpdateMsg? && AllStorable(Fields(m))
    ensures Body(Resend(m)) + rest ==
            Le32(m.flags) + (FieldBytes(m.flags, ResentValues(UPDATE_LAYOUT, Fields(m))) + (IconPart(m.flags, m.icon) + rest))
  {
    hide Wire.Le32, Protocol.HasFlag, Protocol.FieldBytes, Protocol.IconPart, Protocol.Strings, Resend, ResentValues,
         Fields, AllStorable;
    ResentUpdate(m);
    Regroup(Le32(m.flags), FieldBytes(m.flags, Strings(Resend(m))), IconPart(m.flags, m.icon), rest);
  }

  // What an update leaves behind its strings is its icon.
  lemma IconTail(flags: u32, s: seq<byte>)
    ensures var r := ParseIcon(s, true);
            HasFlag(flags, FIELD_ICON) && r.Ok? ==> s == IconPart(flags, Some(r.value)) + r.rest
    ensures !HasFlag(flags, FIELD_ICON) ==> s == IconPart(flags, None) + s
  {
    hide Protocol.HasFlag, Protocol.ParseIcon, Protocol.IconBytes;
    IconReencode(s);
  }

  lemma UpdateReencode(s: seq<byte>)
    ensures var r := ParseUpdate(s, true);
            r.Ok? ==> AllStorable(Fields(r.value)) &&
                      (AllEven(Fields(r.value)) ==> s == Body(Resend(r.value)) + r.rest)
  {
    hide Wire.Le32, Wire.GetU32, Protocol.HasFlag, Protocol.ParseIcon, Protocol.ParseFields, Protocol.FieldBytes,
         Protocol.IconPart, Protocol.Body, Resend, ResentValues, AllEven, AllStorable;
    var r := ParseUpdate(s, true);
    if r.Ok? {
      U32Rewrite(s);
      var flags, s1 := GetU32(s).value, GetU32(s).rest;
      FieldsReencode(flags, UPDATE_LAYOUT, s1);
      var fs := ParseFields(flags, UPDATE_LAYOUT, s1);
      assert Fields(r.value) == fs.value;
      if AllEven(Fields(r.value)) {
        IconTail(flags, fs.rest);
        UpdateBody(r.value, r.rest);
      }
    }
  }

  lemma DeleteReencode(s: seq<byte>)
    ensures var r := ParseDelete(s);
            r.Ok? ==> AllStorable(Fields(r.value)) &&
                      (AllEven(Fields(r.value)) ==> s == Body(Resend(r.value)) + r.rest)
  {
    hide Wire.Le32, Wire.GetU32, Protocol.HasFlag, Protocol.ParseFields, Protocol.FieldBytes;
    var r := ParseDelete(s);
    if r.Ok? {
      U32Rewrite(s);
      var flags, s1 := GetU32(s).value, GetU32(s).rest;
      FieldsReencode(flags, DELETE_LAYOUT, s1);
      assert Fields(r.value) == ParseFields(flags, DELETE_LAYOUT, s1).value;
      if AllEven(Fields(r.value)) {
        assert Strings(Resend(r.value)) == ResentValues(DELETE_LAYOUT, Fields(r.value));
      }
    }
  }

  lemma AssociateReencode(s: seq<byte>)
    ensures var r := ParseAssociate(s);
            r.Ok? ==> AllStorable(Fields(r.value)) &&
                      (AllEven(Fields(r.value)) ==> s == Body(Resend(r.value)) + r.rest)
  {
    hide Wire.Le32, Wire.GetU32, Protocol.HasFlag, Protocol.ParseFields, Protocol.FieldBytes;
    var r := ParseAssociate(s);
    if r.Ok? {
      U32Rewrite(s);
      var flags, s1 := GetU32(s).value, GetU32(s).rest;
      U32Rewrite(s1);
      var s2 := GetU32(s1).rest;
      FieldsReencode(flags, ASSOCIATE_LAYOUT, s2);
      assert Fields(r.value) == ParseFields(flags, ASSOCIATE_LAYOUT, s2).value;
      if AllEven(Fields(r.value)) {
        assert Strings(Resend(r.value)) == ResentValues(ASSOCIATE_LAYOUT, Fields(r.value));
      }
    }
  }

  /** Re-encoding any accepted message with even-length strings gives the bytes consumed. */
  lemma AcceptedReencodes(cmdId: u32, s: seq<byte>)
    requires cmdId != CMDID_CAPS
    ensures var r := ParseBody(cmdId, s, true);
            r.Ok? ==> AllStorable(Fields(r.value)) &&
                      CmdId(Resend(r.value)) == cmdId &&
                      (AllEven(Fields(r.value)) ==> s == Body(Resend(r.value)) + r.rest)
  {
    hide Protocol.ParseUpdate, Protocol.ParseDelete, Protocol.ParseAssociate, Protocol.ParseCaps, Protocol.Body;
    UpdateReencode(s);
    DeleteReencode(s);
    AssociateReencode(s);
  }
}
