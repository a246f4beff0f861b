/**
 The remote application list protocol: PDUs as the sender holds them, messages as the
 receiver stores them, and the byte format between the two given as field tables.
 */
module Protocol {
  import opened Wire

  const CMDID_CAPS: u32 := 1
  const CMDID_UPDATE_APPLIST: u32 := 2
  const CMDID_DELETE_APPLIST: u32 := 3
  const CMDID_DELETE_APPLIST_PROVIDER: u32 := 4
  const CMDID_ASSOCIATE_WINDOW_ID: u32 := 5

  type flag = n: int | n > 0 witness 1

  const FIELD_ID: flag := 0x1
  const FIELD_GROUP: flag := 0x2
  const FIELD_EXECPATH: flag := 0x4
  const FIELD_DESC: flag := 0x8
  const FIELD_ICON: flag := 0x10
  const FIELD_PROVIDER: flag := 0x20
  const FIELD_WORKINGDIR: flag := 0x40
  const FIELD_WINDOW_ID: flag := 0x80

  const HINT_SYNC: flag := 0x10_0000
  const HINT_SYNC_START: flag := 0x20_0000
  const HINT_SYNC_END: flag := 0x40_0000

  const CHANNEL_VERSION: u16 := 4
  const HEADER_SIZE: int := 8
  const LANG_SIZE: int := 32
  const MAX_STRING_SIZE: int := 512

  // Bytes of ICON_HEADER (22) and BITMAPINFOHEADER (40) in front of the bits of an icon file.
  const ICON_FILE_HEADERS: int := 62

  /** Whether a flag, always a power of two, is set: shift both until it is bit 0. */
  predicate HasFlag(flags: u32, bit: flag)
    decreases bit
  {
    if bit == 1 then flags % 2 == 1 else HasFlag(flags / 2, bit / 2)
  }

  // ---- the sender's side ----------------------------------------------------------------

  /** A RAIL_UNICODE_STRING: a byte buffer whose length fits a UINT16. */
  type rail = s: seq<byte> | |s| < 0x1_0000

  /** Icon image data; its length fits the UINT32 iconBitsLength. */
  type bitmap = s: seq<byte> | |s| < TWO_32

  datatype IconData = IconData(flags: u32, width: u32, height: u32, stride: u32, bpp: u32,
                               format: u32, bits: bitmap)

  datatype Pdu =
    | Caps(version: u16, name: rail, uniqueId: rail)
    | Update(flags: u32, appId: rail, appGroup: rail, appExecPath: rail, appWorkingDir: rail,
             appDesc: rail, appIcon: Option<IconData>)
    | Delete(flags: u32, appId: rail, appGroup: rail)
    | DeleteProvider(flags: u32, name: rail)
    | Associate(flags: u32, appWindowId: u32, appId: rail, appGroup: rail, appExecPath: rail,
                appDesc: rail)

  /** One optional string of a PDU: sent when its flag bit is set. */
  datatype Value = Value(bit: flag, required: bool, text: rail)

  function Strings(p: Pdu): seq<Value> {
    match p
    case Caps(_, _, _) => []
    case Update(_, id, group, exec, dir, desc, _) =>
      [Value(FIELD_ID, true, id), Value(FIELD_GROUP, false, group), Value(FIELD_EXECPATH, true, exec),
       Value(FIELD_WORKINGDIR, false, dir), Value(FIELD_DESC, true, desc)]
    case Delete(_, id, group) => [Value(FIELD_ID, true, id), Value(FIELD_GROUP, false, group)]
    case DeleteProvider(_, name) => [Value(FIELD_PROVIDER, true, name)]
    case Associate(_, _, id, group, exec, desc) =>
      [Value(FIELD_ID, true, id), Value(FIELD_GROUP, false, group), Value(FIELD_EXECPATH, true, exec),
       Value(FIELD_DESC, true, desc)]
  }

  function CmdId(p: Pdu): u32 {
    match p
    case Caps(_, _, _) => CMDID_CAPS
    case Update(_, _, _, _, _, _, _) => CMDID_UPDATE_APPLIST
    case Delete(_, _, _) => CMDID_DELETE_APPLIST
    case DeleteProvider(_, _) => CMDID_DELETE_APPLIST_PROVIDER
    case Associate(_, _, _, _, _, _) => CMDID_ASSOCIATE_WINDOW_ID
  }

  function StringBytes(s: rail): seq<byte> {
    Le16(|s|) + s
  }

  function FieldBytes(flags: u32, vs: seq<Value>): seq<byte> {
    if vs == [] then []
    else (if HasFlag(flags, vs[0].bit) then StringBytes(vs[0].text) else []) + FieldBytes(flags, vs[1..])
  }

  function WordBytes(ws: seq<u32>): seq<byte> {
    if ws == [] then [] else Le32(ws[0]) + WordBytes(ws[1..])
  }

  // The seven words in front of the icon bits; the last is iconBitsLength.
  function IconWords(i: IconData): seq<u32> {
    [i.flags, i.width, i.height, i.stride, i.bpp, i.format, |i.bits|]
  }

  function IconBytes(i: IconData): seq<byte> {
    WordBytes(IconWords(i)) + i.bits
  }

  function IconPart(flags: u32, icon: Option<IconData>): seq<byte> {
    if HasFlag(flags, FIELD_ICON) && icon.Some? then IconBytes(icon.value) else []
  }

  function Body(p: Pdu): seq<byte> {
    match p
    case Caps(version, name, uniqueId) => Le16(version) + (StringBytes(name) + StringBytes(uniqueId))
    case Update(flags, _, _, _, _, _, icon) =>
      Le32(flags) + (FieldBytes(flags, Strings(p)) + IconPart(flags, icon))
    case Delete(flags, _, _) => Le32(flags) + FieldBytes(flags, Strings(p))
    case DeleteProvider(flags, _) => Le32(flags) + FieldBytes(flags, Strings(p))
    case Associate(flags, windowId, _, _, _, _) => Le32(flags) + (Le32(windowId) + FieldBytes(flags, Strings(p)))
  }

  /** Header and body; the length field counts the header and is a UINT32. */
  function Encode(p: Pdu): seq<byte> {
    Le32(CmdId(p)) + (Le32((HEADER_SIZE + |Body(p)|) % TWO_32) + Body(p))
  }

  function EncodeAll(ps: seq<Pdu>): seq<byte> {
    if ps == [] then [] else Encode(ps[0]) + EncodeAll(ps[1..])
  }

  predicate FieldsSendable(flags: u32, vs: seq<Value>) {
    forall v | v in vs && HasFlag(flags, v.bit) :: |v.text| <= MAX_STRING_SIZE
  }

  /** The PDUs the sender does not refuse with ERROR_INVALID_DATA. */
  predicate Sendable(p: Pdu) {
    match p
    case Caps(_, name, _) => |name| <= MAX_STRING_SIZE
    case Update(flags, _, _, _, _, _, icon) =>
      FieldsSendable(flags, Strings(p)) && (HasFlag(flags, FIELD_ICON) ==> icon.Some?)
    case _ => FieldsSendable(p.flags, Strings(p))
  }

  // ---- the receiver's side --------------------------------------------------------------

  /** A received string: the byte length it was sent with and the code units kept of it. */
  datatype Field = Field(length: u16, text: wstring)

  const NoField: Field := Field(0, [])

  datatype Msg =
    | CapsMsg(version: u16, name: Field, uniqueId: Field)
    | UpdateMsg(flags: u32, appId: Field, appGroup: Field, appExecPath: Field, appWorkingDir: Field,
                appDesc: Field, icon: Option<IconData>)
    | DeleteMsg(flags: u32, appId: Field, appGroup: Field)
    | AssociateMsg(flags: u32, appWindowId: u32, appId: Field, appGroup: Field, appExecPath: Field,
                   appDesc: Field)

  datatype FieldSpec = FieldSpec(bit: flag, required: bool)

  const UPDATE_LAYOUT: seq<FieldSpec> :=
    [FieldSpec(FIELD_ID, true), FieldSpec(FIELD_GROUP, false), FieldSpec(FIELD_EXECPATH, true),
     FieldSpec(FIELD_WORKINGDIR, false), FieldSpec(FIELD_DESC, true)]

  const DELETE_LAYOUT: seq<FieldSpec> := [FieldSpec(FIELD_ID, true), FieldSpec(FIELD_GROUP, false)]

  const ASSOCIATE_LAYOUT: seq<FieldSpec> :=
    [FieldSpec(FIELD_ID, true), FieldSpec(FIELD_GROUP, false), FieldSpec(FIELD_EXECPATH, true),
     FieldSpec(FIELD_DESC, true)]

  // What is left after a parse is a suffix of what was given.
  ghost predicate LeavesSuffix<T>(s: seq<byte>, r: Parsed<T>) {
    r.Ok? ==> |r.rest| <= |s| && r.rest == s[|s| - |r.rest|..]
  }

  // A stored string has room for its terminator and holds the whole units of its bytes.
  predicate Kept(f: Field) {
    f.length + 2 <= MAX_STRING_SIZE && |f.text| == f.length / 2
  }

  function ParseString(s: seq<byte>, required: bool): (r: Parsed<Field>)
    ensures LeavesSuffix(s, r)
    ensures r.Ok? ==> Kept(r.value) && (required ==> r.value.length > 0)
  {
    match GetU16(s)
    case Fail => Fail
    case Ok(n, t) =>
      if n + 2 > MAX_STRING_SIZE then Fail
      else if n > 0 then
        if |t| >= n then Ok(Field(n, WChars(t[..n])), t[n..]) else Fail
      else if required then Fail
      else Ok(NoField, t)
  }

  function ParseFields(flags: u32, layout: seq<FieldSpec>, s: seq<byte>): (r: Parsed<seq<Field>>)
    ensures LeavesSuffix(s, r)
    ensures r.Ok? ==> |r.value| == |layout|
  {
    if layout == [] then Ok([], s)
    else
      var first := if HasFlag(flags, layout[0].bit) then ParseString(s, layout[0].required) else Ok(NoField, s);
      match first
      case Fail => Fail
      case Ok(f, t) =>
        match ParseFields(flags, layout[1..], t)
        case Fail => Fail
        case Ok(fs, u) => Ok([f] + fs, u)
  }

  function ParseWords(n: nat, s: seq<byte>): (r: Parsed<seq<u32>>)
    ensures LeavesSuffix(s, r)
    ensures r.Ok? ==> |r.value| == n
  {
    if n == 0 then Ok([], s)
    else
      match GetU32(s) case Fail => Fail case Ok(w, t) =>
      match ParseWords(n - 1, t) case Fail => Fail case Ok(ws, u) =>
      Ok([w] + ws, u)
  }

  function ParseIcon(s: seq<byte>, allocOk: bool): (r: Parsed<IconData>)
    ensures LeavesSuffix(s, r)
  {
    match ParseWords(7, s) case Fail => Fail case Ok(w, t) =>
    if ICON_FILE_HEADERS + w[6] >= TWO_32 || !allocOk || |t| < w[6] then Fail
    else Ok(IconData(w[0], w[1], w[2], w[3], w[4], w[5], t[..w[6]]), t[w[6]..])
  }

  function ParseCaps(s: seq<byte>): (r: Parsed<Msg>)
    ensures LeavesSuffix(s, r)
    ensures r.Ok? ==> r.value.CapsMsg? && Kept(r.value.name)
  {
    match GetU16(s) case Fail => Fail case Ok(version, s1) =>
    match ParseString(s1, true) case Fail => Fail case Ok(name, s2) =>
    if version >= 4 then
      match ParseString(s2, true) case Fail => Fail case Ok(uniqueId, s3) =>
      Ok(CapsMsg(version, name, uniqueId), s3)
    else Ok(CapsMsg(version, name, NoField), s2)
  }

  function ParseUpdateStrings(s: seq<byte>): (r: Parsed<Msg>)
    ensures LeavesSuffix(s, r)
    ensures r.Ok? ==> r.value.UpdateMsg?
  {
    match GetU32(s) case Fail => Fail case Ok(flags, s1) =>
    if !(HasFlag(flags, FIELD_ID) && HasFlag(flags, FIELD_EXECPATH) && HasFlag(flags, FIELD_DESC)) then Fail
    else
      match ParseFields(flags, UPDATE_LAYOUT, s1) case Fail => Fail case Ok(f, s2) =>
      Ok(UpdateMsg(flags, f[0], f[1], f[2], f[3], f[4], None), s2)
  }

  function ParseUpdate(s: seq<byte>, allocOk: bool): (r: Parsed<Msg>)
    ensures LeavesSuffix(s, r)
    ensures r.Ok? ==> r.value.UpdateMsg?
  {
    match ParseUpdateStrings(s) case Fail => Fail case Ok(m, s1) =>
    if HasFlag(m.flags, FIELD_ICON) then
      match ParseIcon(s1, allocOk) case Fail => Fail case Ok(icon, s2) =>
      Ok(m.(icon := Some(icon)), s2)
    else Ok(m, s1)
  }

  function ParseDelete(s: seq<byte>): (r: Parsed<Msg>)
    ensures LeavesSuffix(s, r)
    ensures r.Ok? ==> r.value.DeleteMsg?
  {
    match GetU32(s) case Fail => Fail case Ok(flags, s1) =>
    if !HasFlag(flags, FIELD_ID) then Fail
    else
      match ParseFields(flags, DELETE_LAYOUT, s1) case Fail => Fail case Ok(f, s2) =>
      Ok(DeleteMsg(flags, f[0], f[1]), s2)
  }

  function ParseAssociate(s: seq<byte>): (r: Parsed<Msg>)
    ensures LeavesSuffix(s, r)
    ensures r.Ok? ==> r.value.AssociateMsg?
  {
    match GetU32(s) case Fail => Fail case Ok(flags, s1) =>
    if !(HasFlag(flags, FIELD_ID) && HasFlag(flags, FIELD_WINDOW_ID)) then Fail
    else
      match GetU32(s1) case Fail => Fail case Ok(windowId, s2) =>
      match ParseFields(flags, ASSOCIATE_LAYOUT, s2) case Fail => Fail case Ok(f, s3) =>
      Ok(AssociateMsg(flags, windowId, f[0], f[1], f[2], f[3]), s3)
  }

  /** The body parse a command id selects; other ids have no body that is read. */
  function ParseBody(cmdId: u32, s: seq<byte>, allocOk: bool): (r: Parsed<Msg>)
    ensures LeavesSuffix(s, r)
  {
    if cmdId == CMDID_CAPS then ParseCaps(s)
    else if cmdId == CMDID_UPDATE_APPLIST then ParseUpdate(s, allocOk)
    else if cmdId == CMDID_DELETE_APPLIST then ParseDelete(s)
    else if cmdId == CMDID_ASSOCIATE_WINDOW_ID then ParseAssociate(s)
    else Fail
  }

  datatype Header = Header(cmdId: u32, length: u32)

  function ParseHeader(s: seq<byte>): (r: Parsed<Header>)
    ensures LeavesSuffix(s, r)
    ensures r.Ok? <==> |s| >= HEADER_SIZE
    ensures r.Ok? ==> |r.rest| == |s| - HEADER_SIZE
  {
    match GetU32(s) case Fail => Fail case Ok(cmdId, s1) =>
    match GetU32(s1) case Fail => Fail case Ok(length, s2) =>
    Ok(Header(cmdId, length), s2)
  }
}
