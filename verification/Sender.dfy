/**
 The server side encoders: a first pass sums the body length in a UINT32, the packet stream is
 allocated with it, and a second pass writes the flag-selected fields through the stream cursor.
 */
module Sender {
  import opened Wire
  import opened Protocol

  /** A write-only packet stream. The cursor is the number of bytes written so far. */
  class Stream {
    const capacity: nat
    var bytes: seq<byte>

    constructor (capacity: nat)
      ensures this.capacity == capacity && bytes == []
    {
      this.capacity := capacity;
      bytes := [];
    }

    method WriteU16(x: u16)
      modifies this
      ensures bytes == old(bytes) + Le16(x)
    {
      bytes := bytes + Le16(x);
    }

    method WriteU32(x: u32)
      modifies this
      ensures bytes == old(bytes) + Le32(x)
    {
      bytes := bytes + Le32(x);
    }

    method Write(b: seq<byte>)
      modifies this
      ensures bytes == old(bytes) + b
    {
      bytes := bytes + b;
    }
  }

  /** Outcome of a send: refused, no memory for the stream, or the bytes handed to the channel. */
  datatype Sent = InvalidData | NoMemory | Written(bytes: seq<byte>, capacity: nat)

  function AddU32(a: int, b: int): u32 {
    (a + b) % TWO_32
  }

  /** What every send function promises; the capacity is exact unless the length wrapped. */
  ghost predicate SendsAs(p: Pdu, memory: bool, r: Sent) {
    && (r.InvalidData? <==> !Sendable(p))
    && (r.NoMemory? <==> Sendable(p) && !memory)
    && (r.Written? ==>
         && r.bytes == Encode(p)
         && r.capacity == (HEADER_SIZE + |Body(p)|) % TWO_32
         && (r.capacity == |r.bytes| <==> HEADER_SIZE + |Body(p)| < TWO_32))
  }

  lemma {:induction false} FieldBytesConcat(flags: u32, a: seq<Value>, b: seq<Value>)
    ensures FieldBytes(flags, a + b) == FieldBytes(flags, a) + FieldBytes(flags, b)
  {
    hide Protocol.HasFlag, Protocol.StringBytes;
    if a == [] {
      assert a + b == b;
    } else {
      assert (a + b)[1..] == a[1..] + b;
      FieldBytesConcat(flags, a[1..], b);
    }
  }

  // One step of either pass: the first k fields are done, the next one is v.
  lemma NextField(flags: u32, vs: seq<Value>, k: nat)
    requires k < |vs|
    ensures FieldBytes(flags, vs[..k + 1]) ==
            FieldBytes(flags, vs[..k]) + (if HasFlag(flags, vs[k].bit) then StringBytes(vs[k].text) else [])
  {
    hide Protocol.HasFlag, Protocol.StringBytes;
    assert vs[..k + 1] == vs[..k] + [vs[k]];
    FieldBytesConcat(flags, vs[..k], [vs[k]]);
    assert FieldBytes(flags, [vs[k]]) == (if HasFlag(flags, vs[k].bit) then StringBytes(vs[k].text) else []) + [];
  }

  // First pass over field k of vs: refuse an oversized string, otherwise add its length.
  method Measure(flags: u32, ghost vs: seq<Value>, ghost k: nat, v: Value, len: u32, ghost base: nat)
    returns (ok: bool, total: u32)
    requires k < |vs| <= 5 && v == vs[k] && base <= 8
    requires FieldsSendable(flags, vs[..k])
    requires len == base + |FieldBytes(flags, vs[..k])| <= base + 514 * k
    ensures ok <==> FieldsSendable(flags, vs[..k + 1])
    ensures ok ==> total == base + |FieldBytes(flags, vs[..k + 1])| <= base + 514 * (k + 1)
  {
    hide Protocol.HasFlag;
    ok, total := true, len;
    NextField(flags, vs, k);
    assert vs[..k + 1] == vs[..k] + [v];
    if HasFlag(flags, v.bit) {
      if |v.text| > MAX_STRING_SIZE {
        assert v in vs[..k + 1];
        return false, len;
      }
      total := AddU32(len, 2 + |v.text|);
    }
  }

  // Second pass over field k of vs.
  method WriteField(s: Stream, flags: u32, ghost vs: seq<Value>, ghost k: nat, v: Value, ghost front: seq<byte>)
    requires k < |vs| && v == vs[k]
    requires s.bytes == front + FieldBytes(flags, vs[..k])
    modifies s
    ensures s.bytes == front + FieldBytes(flags, vs[..k + 1])
  {
    hide Protocol.HasFlag, Wire.Le16;
    NextField(flags, vs, k);
    if HasFlag(flags, v.bit) {
      s.WriteU16(|v.text|);
      s.Write(v.text);
    }
  }

  // A fresh stream with the header already written; none when allocation fails.
  method SinglePacketNew(cmdId: u32, length: u32, memory: bool) returns (s: Stream?)
    ensures s == null <==> !memory
    ensures s != null ==> fresh(s) && s.capacity == AddU32(HEADER_SIZE, length) &&
                          s.bytes == Le32(cmdId) + Le32(AddU32(HEADER_SIZE, length))
  {
    if !memory {
      return null;
    }
    s := new Stream(AddU32(HEADER_SIZE, length));
    s.WriteU32(cmdId);
    s.WriteU32(AddU32(HEADER_SIZE, length));
  }

  // The header arithmetic shared by the five encoders.
  lemma PacketSize(p: Pdu, length: u32)
    requires length == |Body(p)| % TWO_32
    ensures AddU32(HEADER_SIZE, length) == (HEADER_SIZE + |Body(p)|) % TWO_32
    ensures |Encode(p)| == HEADER_SIZE + |Body(p)|
    ensures AddU32(HEADER_SIZE, length) == |Encode(p)| <==> HEADER_SIZE + |Body(p)| < TWO_32
    ensures Encode(p) == Le32(CmdId(p)) + Le32(AddU32(HEADER_SIZE, length)) + Body(p)
  {
    hide Protocol.Body, Wire.Le32;
  }

  method SendCaps(p: Pdu, memory: bool) returns (r: Sent)
    requires p.Caps?
    ensures SendsAs(p, memory, r)
  {
    hide Wire.Le16, Wire.Le32;
    if |p.name| > MAX_STRING_SIZE {
      return InvalidData;
    }
    var len := 2 + 2 + |p.name| + 2 + |p.uniqueId|;
    PacketSize(p, len);
    var s := SinglePacketNew(CMDID_CAPS, len, memory);
    if s == null {
      return NoMemory;
    }
    s.WriteU16(p.version);
    s.WriteU16(|p.name|);
    s.Write(p.name);
    s.WriteU16(|p.uniqueId|);
    s.Write(p.uniqueId);
    r := Written(s.bytes, s.capacity);
    assert r.bytes == Le32(CMDID_CAPS) + Le32(AddU32(HEADER_SIZE, len)) + Body(p);
  }

  // First pass of SendUpdateApplist, over its five strings.
  method MeasureStrings(p: Pdu) returns (ok: bool, len: u32)
    requires p.Update?
    ensures ok <==> FieldsSendable(p.flags, Strings(p))
    ensures ok ==> len == 4 + |FieldBytes(p.flags, Strings(p))|
  {
    hide Protocol.HasFlag, Protocol.FieldBytes, FieldsSendable;
    ghost var vs := Strings(p);
    assert vs[..0] == [] && vs[..5] == vs && |vs| == 5;
    EmptyFields(p.flags);
    ok, len := true, 4;
    ok, len := Measure(p.flags, vs, 0, Value(FIELD_ID, true, p.appId), len, 4);
    if !ok { Oversized(p.flags, vs, 1); return; }
    ok, len := Measure(p.flags, vs, 1, Value(FIELD_GROUP, false, p.appGroup), len, 4);
    if !ok { Oversized(p.flags, vs, 2); return; }
    ok, len := Measure(p.flags, vs, 2, Value(FIELD_EXECPATH, true, p.appExecPath), len, 4);
    if !ok { Oversized(p.flags, vs, 3); return; }
    ok, len := Measure(p.flags, vs, 3, Value(FIELD_WORKINGDIR, false, p.appWorkingDir), len, 4);
    if !ok { Oversized(p.flags, vs, 4); return; }
    ok, len := Measure(p.flags, vs, 4, Value(FIELD_DESC, true, p.appDesc), len, 4);
    if !ok { Oversized(p.flags, vs, 5); return; }
  }

  // First pass of SendUpdateApplist.
  method MeasureUpdate(p: Pdu) returns (ok: bool, len: u32)
    requires p.Update?
    ensures ok <==> Sendable(p)
    ensures ok ==> len == |Body(p)| % TWO_32
  {
    hide Protocol.HasFlag, Protocol.FieldBytes, Protocol.Body, Protocol.Strings, FieldsSendable;
    ok, len := MeasureStrings(p);
    if !ok {
      return;
    }
    if HasFlag(p.flags, FIELD_ICON) {
      if p.appIcon.None? {
        return false, len;
      }
      len := AddU32(len, AddU32(7 * 4, |p.appIcon.value.bits|));
    }
    UpdateSize(p);
  }

  // Second pass of SendUpdateApplist.
  method WriteUpdate(s: Stream, p: Pdu)
    requires p.Update? && Sendable(p)
    modifies s
    ensures s.bytes == old(s.bytes) + Body(p)
  {
    hide Wire.Le32, Protocol.HasFlag, Protocol.FieldBytes, Protocol.IconBytes, FieldsSendable;
    ghost var vs := Strings(p);
    assert vs[..0] == [] && vs[..5] == vs && |vs| == 5;
    EmptyFields(p.flags);
    ghost var front := s.bytes + Le32(p.flags);
    s.WriteU32(p.flags);
    assert s.bytes == front + FieldBytes(p.flags, vs[..0]);
    WriteField(s, p.flags, vs, 0, Value(FIELD_ID, true, p.appId), front);
    WriteField(s, p.flags, vs, 1, Value(FIELD_GROUP, false, p.appGroup), front);
    WriteField(s, p.flags, vs, 2, Value(FIELD_EXECPATH, true, p.appExecPath), front);
    WriteField(s, p.flags, vs, 3, Value(FIELD_WORKINGDIR, false, p.appWorkingDir), front);
    WriteField(s, p.flags, vs, 4, Value(FIELD_DESC, true, p.appDesc), front);
    if HasFlag(p.flags, FIELD_ICON) {
      WriteIcon(s, p.appIcon.value);
    }
    assert s.bytes == front + FieldBytes(p.flags, vs) + IconPart(p.flags, p.appIcon);
  }

  method SendUpdateApplist(p: Pdu, memory: bool) returns (r: Sent)
    requires p.Update?
    ensures SendsAs(p, memory, r)
  {
    hide Wire.Le32, Protocol.Body, Sendable;
    var ok, len := MeasureUpdate(p);
    if !ok {
      return InvalidData;
    }
    PacketSize(p, len);
    var s := SinglePacketNew(CMDID_UPDATE_APPLIST, len, memory);
    if s == null {
      return NoMemory;
    }
    WriteUpdate(s, p);
    r := Written(s.bytes, s.capacity);
  }

  method WriteIcon(s: Stream, icon: IconData)
    modifies s
    ensures s.bytes == old(s.bytes) + IconBytes(icon)
  {
    hide Wire.Le32;
    s.WriteU32(icon.flags);
    s.WriteU32(icon.width);
    s.WriteU32(icon.height);
    s.WriteU32(icon.stride);
    s.WriteU32(icon.bpp);
    s.WriteU32(icon.format);
    s.WriteU32(|icon.bits|);
    s.Write(icon.bits);
    IconLayout(icon);
  }

  // The seven words and the bits, in the order they are written.
  lemma IconLayout(icon: IconData)
    ensures IconBytes(icon) ==
            Le32(icon.flags) + Le32(icon.width) + Le32(icon.height) + Le32(icon.stride) + Le32(icon.bpp)
            + Le32(icon.format) + Le32(|icon.bits|) + icon.bits
    ensures |IconBytes(icon)| == 28 + |icon.bits|
  {
    hide Wire.Le32;
    var w := IconWords(icon);
    assert w[1..][1..] == w[2..] && w[2..][1..] == w[3..] && w[3..][1..] == w[4..];
    assert w[4..][1..] == w[5..] && w[5..][1..] == w[6..] && w[6..][1..] == [];
    assert WordBytes(w[6..]) == Le32(w[6]) + WordBytes([]);
    assert WordBytes(w[5..]) == Le32(w[5]) + WordBytes(w[6..]);
    assert WordBytes(w[4..]) == Le32(w[4]) + WordBytes(w[5..]);
    assert WordBytes(w[3..]) == Le32(w[3]) + WordBytes(w[4..]);
    assert WordBytes(w[2..]) == Le32(w[2]) + WordBytes(w[3..]);
    assert WordBytes(w[1..]) == Le32(w[1]) + WordBytes(w[2..]);
  }

  lemma EmptyFields(flags: u32)
    ensures FieldBytes(flags, []) == [] && FieldsSendable(flags, [])
  {
  }

  lemma UpdateSize(p: Pdu)
    requires p.Update?
    ensures |Body(p)| == 4 + |FieldBytes(p.flags, Strings(p))| +
                         if HasFlag(p.flags, FIELD_ICON) && p.appIcon.Some? then 28 + |p.appIcon.value.bits| else 0
  {
    hide Wire.Le32, Protocol.HasFlag, Protocol.FieldBytes, Protocol.IconBytes;
    if p.appIcon.Some? {
      IconLayout(p.appIcon.value);
    }
  }

  // A string refused among the first k fields makes the whole PDU unsendable.
  lemma Oversized(flags: u32, vs: seq<Value>, k: nat)
    requires k <= |vs| && !FieldsSendable(flags, vs[..k])
    ensures !FieldsSendable(flags, vs)
  {
    hide Protocol.HasFlag;
    assert forall v | v in vs[..k] :: v in vs;
  }

  method SendDeleteApplist(p: Pdu, memory: bool) returns (r: Sent)
    requires p.Delete?
    ensures SendsAs(p, memory, r)
  {
    hide Wire.Le16, Wire.Le32, Protocol.HasFlag, Protocol.FieldBytes, Protocol.Encode;
    ghost var vs := Strings(p);
    assert vs[..0] == [] && vs[..2] == vs && |vs| == 2;
    EmptyFields(p.flags);
    var ok, len: u32 := true, 4;
    ok, len := Measure(p.flags, vs, 0, Value(FIELD_ID, true, p.appId), len, 4);
    if !ok { Oversized(p.flags, vs, 1); return InvalidData; }
    ok, len := Measure(p.flags, vs, 1, Value(FIELD_GROUP, false, p.appGroup), len, 4);
    if !ok { Oversized(p.flags, vs, 2); return InvalidData; }
    PacketSize(p, len);
    var s := SinglePacketNew(CMDID_DELETE_APPLIST, len, memory);
    if s == null {
      return NoMemory;
    }
    ghost var front := s.bytes + Le32(p.flags);
    s.WriteU32(p.flags);
    assert s.bytes == front + FieldBytes(p.flags, vs[..0]);
    WriteField(s, p.flags, vs, 0, Value(FIELD_ID, true, p.appId), front);
    WriteField(s, p.flags, vs, 1, Value(FIELD_GROUP, false, p.appGroup), front);
    r := Written(s.bytes, s.capacity);
    assert r.bytes == Le32(CMDID_DELETE_APPLIST) + Le32(AddU32(HEADER_SIZE, len)) + Body(p);
  }

  method SendDeleteApplistProvider(p: Pdu, memory: bool) returns (r: Sent)
    requires p.DeleteProvider?
    ensures SendsAs(p, memory, r)
  {
    hide Wire.Le16, Wire.Le32, Protocol.HasFlag, Protocol.FieldBytes, Protocol.Encode;
    ghost var vs := Strings(p);
    assert vs[..0] == [] && vs[..1] == vs && |vs| == 1;
    EmptyFields(p.flags);
    var ok, len: u32 := true, 4;
    ok, len := Measure(p.flags, vs, 0, Value(FIELD_PROVIDER, true, p.name), len, 4);
    if !ok { Oversized(p.flags, vs, 1); return InvalidData; }
    PacketSize(p, len);
    var s := SinglePacketNew(CMDID_DELETE_APPLIST_PROVIDER, len, memory);
    if s == null {
      return NoMemory;
    }
    ghost var front := s.bytes + Le32(p.flags);
    s.WriteU32(p.flags);
    assert s.bytes == front + FieldBytes(p.flags, vs[..0]);
    WriteField(s, p.flags, vs, 0, Value(FIELD_PROVIDER, true, p.name), front);
    r := Written(s.bytes, s.capacity);
    assert r.bytes == Le32(CMDID_DELETE_APPLIST_PROVIDER) + Le32(AddU32(HEADER_SIZE, len)) + Body(p);
  }

  method SendAssociateWindowId(p: Pdu, memory: bool) returns (r: Sent)
    requires p.Associate?
    ensures SendsAs(p, memory, r)
  {
    hide Wire.Le16, Wire.Le32, Protocol.HasFlag, Protocol.FieldBytes, Protocol.Encode;
    ghost var vs := Strings(p);
    assert vs[..0] == [] && vs[..4] == vs && |vs| == 4;
    EmptyFields(p.flags);
    var ok, len: u32 := true, 8;
    ok, len := Measure(p.flags, vs, 0, Value(FIELD_ID, true, p.appId), len, 8);
    if !ok { Oversized(p.flags, vs, 1); return InvalidData; }
    ok, len := Measure(p.flags, vs, 1, Value(FIELD_GROUP, false, p.appGroup), len, 8);
    if !ok { Oversized(p.flags, vs, 2); return InvalidData; }
    ok, len := Measure(p.flags, vs, 2, Value(FIELD_EXECPATH, true, p.appExecPath), len, 8);
    if !ok { Oversized(p.flags, vs, 3); return InvalidData; }
    ok, len := Measure(p.flags, vs, 3, Value(FIELD_DESC, true, p.appDesc), len, 8);
    if !ok { Oversized(p.flags, vs, 4); return InvalidData; }
    PacketSize(p, len);
    var s := SinglePacketNew(CMDID_ASSOCIATE_WINDOW_ID, len, memory);
    if s == null {
      return NoMemory;
    }
    ghost var front := s.bytes + (Le32(p.flags) + Le32(p.appWindowId));
    s.WriteU32(p.flags);
    s.WriteU32(p.appWindowId);
    assert s.bytes == front + FieldBytes(p.flags, vs[..0]);
    WriteField(s, p.flags, vs, 0, Value(FIELD_ID, true, p.appId), front);
    WriteField(s, p.flags, vs, 1, Value(FIELD_GROUP, false, p.appGroup), front);
    WriteField(s, p.flags, vs, 2, Value(FIELD_EXECPATH, true, p.appExecPath), front);
    WriteField(s, p.flags, vs, 3, Value(FIELD_DESC, true, p.appDesc), front);
    r := Written(s.bytes, s.capacity);
    assert r.bytes == Le32(CMDID_ASSOCIATE_WINDOW_ID) + Le32(AddU32(HEADER_SIZE, len)) + Body(p);
  }

  // The sum of up to five checked strings stays far below 2^32.
  lemma {:induction false} FieldBytesBound(flags: u32, vs: seq<Value>)
    requires FieldsSendable(flags, vs)
    ensures |FieldBytes(flags, vs)| <= 514 * |vs|
  {
    hide Protocol.HasFlag;
    if vs != [] {
      assert vs[0] in vs;
      FieldBytesBound(flags, vs[1..]);
    }
  }

  /**
   The stream a sendable PDU is written to is exactly full at the end, with one exception:
   an icon so large that header, strings and bits together reach 2^32 bytes.
   */
  lemma OnlyHugeIconsWrap(p: Pdu)
    requires Sendable(p)
    ensures HEADER_SIZE + |Body(p)| >= TWO_32 <==>
            p.Update? && HasFlag(p.flags, FIELD_ICON) &&
            |p.appIcon.value.bits| >= TWO_32 - 40 - |FieldBytes(p.flags, Strings(p))|
  {
    hide Protocol.HasFlag, Protocol.FieldBytes, Wire.Le32, Protocol.IconBytes;
    if !p.Caps? {
      FieldBytesBound(p.flags, Strings(p));
      assert |Strings(p)| <= 5;
    }
    if p.Update? {
      UpdateSize(p);
    }
  }
}
