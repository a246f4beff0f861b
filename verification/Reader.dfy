/**
 The receiver's decoders. Each works on a local copy of the caller's pointer and remaining
 count, advances both together field by field, and writes them back only on success.
 */
module Reader {
  import opened Wire
  import opened Protocol

  /**
   The contract of every decoder, given the field-table parse of the unread bytes: it succeeds
   exactly when the parse does, yields its value and stops where it stops; otherwise the
   caller's pointer and count are untouched. Pointer plus count is the end of the buffer
   before and after.
   */
  ghost predicate Reads<T(!new)>(buf: seq<byte>, p: nat, parsed: Parsed<T>, ok: bool, value: T, p': nat, r': nat) {
    && p <= p' && p' + r' == |buf|
    && (ok <==> parsed.Ok?)
    && (ok ==> value == parsed.value && buf[p'..] == parsed.rest)
    && (!ok ==> p' == p)
  }

  method ReadUINT16(buf: seq<byte>, p: nat, r: nat) returns (ok: bool, o: u16, p': nat, r': nat)
    requires p + r == |buf|
    ensures Reads(buf, p, GetU16(buf[p..]), ok, o, p', r')
  {
    ok, o, p', r' := false, 0, p, r;
    if r >= 2 {
      o := Combine(buf[p], buf[p + 1], 0x100);
      assert buf[p..][2..] == buf[p + 2..];
      ok, p', r' := true, p + 2, r - 2;
    }
  }

  method ReadUINT32(buf: seq<byte>, p: nat, r: nat) returns (ok: bool, o: u32, p': nat, r': nat)
    requires p + r == |buf|
    ensures Reads(buf, p, GetU32(buf[p..]), ok, o, p', r')
  {
    ok, o, p', r' := false, 0, p, r;
    if r >= 4 {
      assert buf[p..][2..] == buf[p + 2..] && buf[p..][4..] == buf[p + 4..];
      var low: u16 := Combine(buf[p], buf[p + 1], 0x100);
      var high: u16 := Combine(buf[p + 2], buf[p + 3], 0x100);
      CombineSplits(low, high);
      o := Combine(low, high, 0x1_0000);
      ok, p', r' := true, p + 4, r - 4;
    }
  }

  method ReadSTRING(buf: seq<byte>, p: nat, r: nat, required: bool)
    returns (ok: bool, o: Field, p': nat, r': nat)
    requires p + r == |buf|
    ensures Reads(buf, p, ParseString(buf[p..], required), ok, o, p', r')
  {
    hide Wire.GetU16, Wire.WChars;
    ok, o, p', r' := false, NoField, p, r;
    var got, n, q, left := ReadUINT16(buf, p, r);
    if !got || n + 2 > MAX_STRING_SIZE {
      return;
    }
    if n > 0 {
      if left < n {
        return;
      }
      assert buf[q..][..n] == buf[q..q + n] && buf[q..][n..] == buf[q + n..];
      ok, o, p', r' := true, Field(n, WChars(buf[q..q + n])), q + n, left - n;
    } else if !required {
      ok, p', r' := true, q, left;
    }
  }

  method ReadAppListHeader(buf: seq<byte>, buffer: nat, size: nat)
    returns (ok: bool, header: Header, buffer': nat, size': nat)
    requires buffer + size == |buf|
    ensures Reads(buf, buffer, ParseHeader(buf[buffer..]), ok, header, buffer', size')
  {
    hide Wire.GetU32;
    ok, header, buffer', size' := false, Header(0, 0), buffer, size;
    var cur, len := buffer, size;
    var got, cmdId, length: u32 := false, 0, 0;
    got, cmdId, cur, len := ReadUINT32(buf, cur, len);
    if !got { return; }
    got, length, cur, len := ReadUINT32(buf, cur, len);
    if !got { return; }
    ok, header, buffer', size' := true, Header(cmdId, length), cur, len;
  }

  // The version word lands in the receiver's state even when a later field fails.
  method ReadAppListServerCaps(buf: seq<byte>, buffer: nat, size: nat, before: u16)
    returns (ok: bool, caps: Msg, version: u16, buffer': nat, size': nat)
    requires buffer + size == |buf|
    ensures Reads(buf, buffer, ParseCaps(buf[buffer..]), ok, caps, buffer', size')
    ensures version == match GetU16(buf[buffer..]) case Fail => before case Ok(v, _) => v
    ensures ok ==> caps.CapsMsg? && caps.version == version
  {
    hide Wire.GetU16, Protocol.ParseString;
    ok, caps, version, buffer', size' := false, CapsMsg(before, NoField, NoField), before, buffer, size;
    var cur, len := buffer, size;
    var got, v := false, before;
    got, v, cur, len := ReadUINT16(buf, cur, len);
    if !got { return; }
    version := v;
    var name, uniqueId := NoField, NoField;
    got, name, cur, len := ReadSTRING(buf, cur, len, true);
    if !got { return; }
    if v >= 4 {
      got, uniqueId, cur, len := ReadSTRING(buf, cur, len, true);
      if !got { return; }
    }
    ok, caps, buffer', size' := true, CapsMsg(v, name, uniqueId), cur, len;
  }

  // One flag-selected string: layout[0] is read, the rest of the table follows at p'.
  method ReadField(buf: seq<byte>, p: nat, r: nat, flags: u32, bit: flag, required: bool, ghost layout: seq<FieldSpec>)
    returns (ok: bool, o: Field, p': nat, r': nat)
    requires p + r == |buf|
    requires layout != [] && layout[0] == FieldSpec(bit, required)
    ensures p <= p' && p' + r' == |buf|
    ensures ParseFields(flags, layout, buf[p..]) ==
            if !ok then Fail
            else match ParseFields(flags, layout[1..], buf[p'..])
                 case Fail => Fail
                 case Ok(fs, u) => Ok([o] + fs, u)
  {
    hide Protocol.HasFlag, Protocol.ParseString;
    ok, o, p', r' := true, NoField, p, r;
    if HasFlag(flags, bit) {
      ok, o, p', r' := ReadSTRING(buf, p, r, required);
    }
  }

  // The five strings of an update, in the order of UPDATE_LAYOUT.
  method ReadUpdateStrings(buf: seq<byte>, p: nat, r: nat, flags: u32)
    returns (ok: bool, f: seq<Field>, p': nat, r': nat)
    requires p + r == |buf|
    ensures Reads(buf, p, ParseFields(flags, UPDATE_LAYOUT, buf[p..]), ok, f, p', r')
    ensures ok ==> |f| == 5
  {
    hide Wire.GetU32, Protocol.HasFlag, Protocol.ParseFields;
    ghost var l := UPDATE_LAYOUT;
    assert l[1..][1..] == l[2..] && l[2..][1..] == l[3..] && l[3..][1..] == l[4..] && l[4..][1..] == [];
    ok, f, p', r' := false, [], p, r;
    var cur, len, got := p, r, false;
    var id, group, exec, dir, desc := NoField, NoField, NoField, NoField, NoField;
    got, id, cur, len := ReadField(buf, cur, len, flags, FIELD_ID, true, l);
    if !got { return; }
    got, group, cur, len := ReadField(buf, cur, len, flags, FIELD_GROUP, false, l[1..]);
    if !got { return; }
    got, exec, cur, len := ReadField(buf, cur, len, flags, FIELD_EXECPATH, true, l[2..]);
    if !got { return; }
    got, dir, cur, len := ReadField(buf, cur, len, flags, FIELD_WORKINGDIR, false, l[3..]);
    if !got { return; }
    got, desc, cur, len := ReadField(buf, cur, len, flags, FIELD_DESC, true, l[4..]);
    if !got { return; }
    NoMoreFields(flags, buf[cur..]);
    ok, f, p', r' := true, [id, group, exec, dir, desc], cur, len;
    assert [id] + ([group] + ([exec] + ([dir] + ([desc] + [])))) == f;
  }

  method ReadAppListUpdate(buf: seq<byte>, buffer: nat, size: nat)
    returns (ok: bool, update: Msg, buffer': nat, size': nat)
    requires buffer + size == |buf|
    ensures Reads(buf, buffer, ParseUpdateStrings(buf[buffer..]), ok, update, buffer', size')
  {
    hide Wire.GetU32, Protocol.HasFlag, Protocol.ParseFields;
    ok, buffer', size' := false, buffer, size;
    update := UpdateMsg(0, NoField, NoField, NoField, NoField, NoField, None);
    var cur, len := buffer, size;
    var got, flags: u32 := false, 0;
    got, flags, cur, len := ReadUINT32(buf, cur, len);
    if !got { return; }
    if !(HasFlag(flags, FIELD_ID) && HasFlag(flags, FIELD_EXECPATH) && HasFlag(flags, FIELD_DESC)) {
      return;
    }
    var f: seq<Field> := [];
    got, f, cur, len := ReadUpdateStrings(buf, cur, len, flags);
    if !got { return; }
    ok, update, buffer', size' := true, UpdateMsg(flags, f[0], f[1], f[2], f[3], f[4], None), cur, len;
  }

  lemma NoMoreFields(flags: u32, s: seq<byte>)
    ensures ParseFields(flags, [], s) == Ok([], s)
  {
  }

  // One of the words in front of the icon bits; n - 1 of them follow.
  method ReadWord(buf: seq<byte>, p: nat, r: nat, ghost n: nat)
    returns (ok: bool, o: u32, p': nat, r': nat)
    requires p + r == |buf| && n > 0
    ensures p <= p' && p' + r' == |buf|
    ensures ParseWords(n, buf[p..]) ==
            if !ok then Fail
            else match ParseWords(n - 1, buf[p'..])
                 case Fail => Fail
                 case Ok(ws, u) => Ok([o] + ws, u)
  {
    hide Wire.GetU32;
    ok, o, p', r' := ReadUINT32(buf, p, r);
  }

  lemma NoMoreWords(s: seq<byte>)
    ensures ParseWords(0, s) == Ok([], s)
  {
  }

  // Two words of the seven; n - 2 of them follow.
  method ReadWordPair(buf: seq<byte>, p: nat, r: nat, ghost n: nat)
    returns (ok: bool, a: u32, b: u32, p': nat, r': nat)
    requires p + r == |buf| && n > 1
    ensures p <= p' && p' + r' == |buf|
    ensures ParseWords(n, buf[p..]) ==
            if !ok then Fail
            else match ParseWords(n - 2, buf[p'..])
                 case Fail => Fail
                 case Ok(ws, u) => Ok([a, b] + ws, u)
  {
    hide Protocol.ParseWords;
    ok, a, b, p', r' := false, 0, 0, p, r;
    ok, a, p', r' := ReadWord(buf, p', r', n);
    if !ok { return; }
    ok, b, p', r' := ReadWord(buf, p', r', n - 1);
    ghost var more := ParseWords(n - 2, buf[p'..]);
    if ok && more.Ok? {
      assert [a] + ([b] + more.value) == [a, b] + more.value;
    }
  }

  method ReadIconWords(buf: seq<byte>, p: nat, r: nat)
    returns (ok: bool, w: seq<u32>, p': nat, r': nat)
    requires p + r == |buf|
    ensures Reads(buf, p, ParseWords(7, buf[p..]), ok, w, p', r')
    ensures ok ==> |w| == 7
  {
    hide Protocol.ParseWords;
    ok, w, p', r' := false, [], p, r;
    var cur, len, got := p, r, false;
    var flags, width, height, stride, bpp, format, bitsLength: u32 := 0, 0, 0, 0, 0, 0, 0;
    got, flags, width, cur, len := ReadWordPair(buf, cur, len, 7);
    if !got { return; }
    got, height, stride, cur, len := ReadWordPair(buf, cur, len, 5);
    if !got { return; }
    got, bpp, format, cur, len := ReadWordPair(buf, cur, len, 3);
    if !got { return; }
    got, bitsLength, cur, len := ReadWord(buf, cur, len, 1);
    if !got { return; }
    NoMoreWords(buf[cur..]);
    ok, w, p', r' := true, [flags, width, height, stride, bpp, format, bitsLength], cur, len;
    assert [flags, width] + ([height, stride] + ([bpp, format] + ([bitsLength] + []))) == w;
  }

  method ReadAppListIconData(buf: seq<byte>, buffer: nat, size: nat, allocOk: bool)
    returns (ok: bool, icon: IconData, buffer': nat, size': nat)
    requires buffer + size == |buf|
    ensures Reads(buf, buffer, ParseIcon(buf[buffer..], allocOk), ok, icon, buffer', size')
  {
    hide Wire.GetU32, Protocol.ParseWords;
    ok, icon, buffer', size' := false, IconData(0, 0, 0, 0, 0, 0, []), buffer, size;
    var got, w, cur, len := ReadIconWords(buf, buffer, size);
    if !got { return; }
    var bitsLength := w[6];
    if ICON_FILE_HEADERS + bitsLength >= TWO_32 || !allocOk || len < bitsLength {
      return;
    }
    assert buf[cur..][..bitsLength] == buf[cur..cur + bitsLength];
    assert buf[cur..][bitsLength..] == buf[cur + bitsLength..];
    icon := IconData(w[0], w[1], w[2], w[3], w[4], w[5], buf[cur..cur + bitsLength]);
    ok, buffer', size' := true, cur + bitsLength, len - bitsLength;
  }

  method ReadAppListDelete(buf: seq<byte>, buffer: nat, size: nat)
    returns (ok: bool, delete: Msg, buffer': nat, size': nat)
    requires buffer + size == |buf|
    ensures Reads(buf, buffer, ParseDelete(buf[buffer..]), ok, delete, buffer', size')
  {
    hide Wire.GetU32, Protocol.HasFlag, Protocol.ParseFields;
    ok, delete, buffer', size' := false, DeleteMsg(0, NoField, NoField), buffer, size;
    var cur, len := buffer, size;
    var got, flags: u32 := false, 0;
    got, flags, cur, len := ReadUINT32(buf, cur, len);
    if !got { return; }
    if !HasFlag(flags, FIELD_ID) {
      return;
    }
    ghost var l := DELETE_LAYOUT;
    assert l[1..][1..] == [];
    var id, group := NoField, NoField;
    got, id, cur, len := ReadField(buf, cur, len, flags, FIELD_ID, true, l);
    if !got { return; }
    got, group, cur, len := ReadField(buf, cur, len, flags, FIELD_GROUP, false, l[1..]);
    if !got { return; }
    NoMoreFields(flags, buf[cur..]);
    ok, delete, buffer', size' := true, DeleteMsg(flags, id, group), cur, len;
  }

  // The four strings of a window association, in the order of ASSOCIATE_LAYOUT.
  method ReadAssociateStrings(buf: seq<byte>, p: nat, r: nat, flags: u32)
    returns (ok: bool, f: seq<Field>, p': nat, r': nat)
    requires p + r == |buf|
    ensures Reads(buf, p, ParseFields(flags, ASSOCIATE_LAYOUT, buf[p..]), ok, f, p', r')
    ensures ok ==> |f| == 4
  {
    hide Wire.GetU32, Protocol.HasFlag, Protocol.ParseFields;
    ghost var l := ASSOCIATE_LAYOUT;
    assert l[1..][1..] == l[2..] && l[2..][1..] == l[3..] && l[3..][1..] == [];
    ok, f, p', r' := false, [], p, r;
    var cur, len, got := p, r, false;
    var id, group, exec, desc := NoField, NoField, NoField, NoField;
    got, id, cur, len := ReadField(buf, cur, len, flags, FIELD_ID, true, l);
    if !got { return; }
    got, group, cur, len := ReadField(buf, cur, len, flags, FIELD_GROUP, false, l[1..]);
    if !got { return; }
    got, exec, cur, len := ReadField(buf, cur, len, flags, FIELD_EXECPATH, true, l[2..]);
    if !got { return; }
    got, desc, cur, len := ReadField(buf, cur, len, flags, FIELD_DESC, true, l[3..]);
    if !got { return; }
    NoMoreFields(flags, buf[cur..]);
    ok, f, p', r' := true, [id, group, exec, desc], cur, len;
    assert [id] + ([group] + ([exec] + ([desc] + []))) == f;
  }

  method ReadAssociateWindowId(buf: seq<byte>, buffer: nat, size: nat)
    returns (ok: bool, associate: Msg, buffer': nat, size': nat)
    requires buffer + size == |buf|
    ensures Reads(buf, buffer, ParseAssociate(buf[buffer..]), ok, associate, buffer', size')
  {
    hide Wire.GetU32, Protocol.HasFlag, Protocol.ParseFields;
    ok, buffer', size' := false, buffer, size;
    associate := AssociateMsg(0, 0, NoField, NoField, NoField, NoField);
    var cur, len := buffer, size;
    var got, flags, windowId: u32 := false, 0, 0;
    got, flags, cur, len := ReadUINT32(buf, cur, len);
    if !got { return; }
    if !(HasFlag(flags, FIELD_ID) && HasFlag(flags, FIELD_WINDOW_ID)) {
      return;
    }
    got, windowId, cur, len := ReadUINT32(buf, cur, len);
    if !got { return; }
    var f: seq<Field> := [];
    got, f, cur, len := ReadAssociateStrings(buf, cur, len, flags);
    if !got { return; }
    ok, associate, buffer', size' := true, AssociateMsg(flags, windowId, f[0], f[1], f[2], f[3]), cur, len;
  }
}
