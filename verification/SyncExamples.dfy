/**
 Two smallest sync brackets, one update each, over a Start menu that already holds its link: the
 one that reports the link keeps it, the one that ends the sync without reporting it loses it.
 */
module SyncExamples {
  import opened Wire
  import opened Protocol
  import opened Codec
  import opened FileSystem
  import opened FileDB
  import opened Receiver
  import opened Runs
  import opened Sync
  import opened EndToEnd

  // The required fields, with a start and an end, and with or without a report.
  const SILENT: u32 := 0x60_000D
  const HINTED: u32 := 0x70_000D

  const MENU: Path := [0x6d]                       // "m"
  const NAME: wstring := [0x64]                    // "d"
  const OLD_LINK: Path := MENU + [SEP] + NAME + LNK

  lemma FlagBits(flags: u32)
    requires flags == SILENT || flags == HINTED
    ensures HasFlag(flags, FIELD_ID) && HasFlag(flags, FIELD_EXECPATH) && HasFlag(flags, FIELD_DESC)
    ensures !HasFlag(flags, FIELD_GROUP) && !HasFlag(flags, FIELD_WORKINGDIR) && !HasFlag(flags, FIELD_ICON)
    ensures HasFlag(flags, HINT_SYNC_START) && HasFlag(flags, HINT_SYNC_END)
    ensures HasFlag(flags, HINT_SYNC) == (flags == HINTED)
  {
    hide Protocol.HasFlag;
    FieldFlags(flags);
    HighBit(flags, HINT_SYNC, 1);
    HighBit(flags, HINT_SYNC_START, 2);
    HighBit(flags, HINT_SYNC_END, 4);
    FieldFlags(flags / 0x10_0000);
  }

  lemma HighBit(flags: u32, bit: flag, low: flag)
    requires bit == 0x10_0000 * low
    ensures HasFlag(flags, bit) == HasFlag(flags / 0x10_0000, low)
  {
    hide Protocol.HasFlag;
    Sixteenth(flags, 0x1_0000 * low);
    Sixteenth(flags / 0x10, 0x1000 * low);
    Sixteenth(flags / 0x100, 0x100 * low);
    Sixteenth(flags / 0x1000, 0x10 * low);
    Sixteenth(flags / 0x1_0000, low);
  }

  function Good(): Env {
    Env(true, true, Faults({}, {}, {}, {}), Saved, true, None, None, None, None, true, true)
  }

  /** Connected, outside sync mode, with the link on the disk from some earlier day. */
  function Before(): State {
    State(map[MENU := Dir, OLD_LINK := Link([])], map[], None, true, false, 4, seq(MAX_PATH, _ => 0), 0, MENU, [], [],
          0, 1, [])
  }

  function Sent(flags: u32): Pdu {
    Update(flags, [0x61, 0], [], [0x62, 0], [], [0x64, 0], None)
  }

  function Message(flags: u32): Msg {
    UpdateMsg(flags, Field(2, [0x61]), NoField, Field(2, [0x62]), NoField, Field(2, NAME), None)
  }

  function Only(flags: u32): Update { Call(Message(flags), Good()) }

  // ---- the update succeeds --------------------------------------------------------------

  lemma LinkShape()
    ensures HasParent(OLD_LINK) && Parent(OLD_LINK) == MENU && !HasParent(MENU)
    ensures Under(OLD_LINK, MENU) && EndsWith(OLD_LINK, LNK) && OLD_LINK != MENU
    ensures |OLD_LINK| == 7
  {
    assert SEP !in NAME;
    LinkParent(MENU, NAME);
  }

  lemma BeforeInv()
    ensures Inv(Before())
  {
    LinkShape();
  }

  lemma Texts(flags: u32)
    ensures CText(Message(flags).appId.text) == [0x61] && CText(Message(flags).appExecPath.text) == [0x62]
    ensures CText(Message(flags).appDesc.text) == NAME && CText(Before().provider) == []
    ensures NamesOk(Message(flags))
  {
    CTextUnique([0x61], [0x61]);
    CTextUnique([0x62], [0x62]);
    CTextUnique(NAME, NAME);
    assert CText([]) == [];
  }

  // The plan in any state that has the menu folder and no more to say.
  lemma PlanOf(st: State, flags: u32)
    requires (flags == SILENT || flags == HINTED) && IsDir(st.fs, MENU)
    requires st == Before().(fs := st.fs, sync := st.sync)
    ensures var plan := PlanUpdate(st, Message(flags), Good());
            plan.0 == st && plan.1.Some? && plan.1.value.key == [0x61] && plan.1.value.paths.link == OLD_LINK
  {
    hide Protocol.HasFlag, CText, W;
    FlagBits(flags);
    Texts(flags);
    LinkShape();
  }

  lemma Succeeds(flags: u32)
    requires flags == SILENT || flags == HINTED
    ensures HandleUpdate(Before(), Message(flags), Good()).ok
  {
    hide Protocol.HasFlag, CText, PlanUpdate, FileSystem.Snapshot, FileSystem.Sweep, NamesOk, FileSystem.WriteFile;
    FlagBits(flags);
    Texts(flags);
    var s := AdmitUpdate(Before(), Message(flags), Good()).st;
    MenuStays();
    PlanOf(s, flags);
  }

  // The menu folder is not empty, and nothing below it is a directory.
  lemma MenuStays()
    ensures Prune(Before().fs, MENU, Good().faults) == Before().fs
  {
    LinkShape();
    var fs := Before().fs;
    assert ChildOf(OLD_LINK, MENU);
    forall p | p in fs ensures !Pruned(fs, p, Good().faults) {
    }
  }

  lemma OneBracket(flags: u32)
    requires flags == SILENT || flags == HINTED
    ensures Bracket(Before(), [], Only(flags)) && Room(Before().fs, MENU, [], [Only(flags)])
    ensures BracketTotal(Before(), [], Only(flags)).updated == {OLD_LINK}
    ensures BracketTotal(Before(), [], Only(flags)).written == {OLD_LINK}
  {
    hide HandleUpdate, Protocol.HasFlag, Inv, Bracket, BracketTotal, CText, Room;
    var u := Only(flags);
    assert [] + [u] == [u];
    FlagBits(flags);
    Succeeds(flags);
    BeforeInv();
    assert AllSucceed(Before(), [u]) by {
      assert [u][1..] == [];
    }
    assert StartsAndEnds([u]);
    SucceedingBracket(Before(), [], u);
    BracketLinks(Before(), [], u);
    LinkOfOnly(flags);
    HasRoom(flags);
    BracketWritten(Before(), [], u);
  }

  lemma LinkOfOnly(flags: u32)
    ensures LinkOf(MENU, Message(flags)) == OLD_LINK && LinksOf(MENU, [Only(flags)]) == {OLD_LINK}
  {
    Texts(flags);
    assert forall u | u in [Only(flags)] :: u == Only(flags);
    assert Only(flags) in [Only(flags)];
  }

  lemma HasRoom(flags: u32)
    ensures Room(Before().fs, MENU, [], [Only(flags)])
  {
    hide CText;
    Texts(flags);
    LinkShape();
    LinkOfOnly(flags);
    assert IconOf([], Message(flags)) == [SEP] + [0x61] + ICO;
    assert |IconOf([], Message(flags))| == 6;
  }

  // ---- and what is left -----------------------------------------------------------------

  lemma Reported(flags: u32)
    requires flags == SILENT || flags == HINTED
    ensures OLD_LINK in BracketTotal(Before(), [], Only(flags)).reported <==> flags == HINTED
  {
    hide HandleUpdate, Protocol.HasFlag, Inv, Target, IconDone, LinkDone, Continue, FileSystem.Snapshot, FileSystem.Prune;
    var u := Only(flags);
    FlagBits(flags);
    Succeeds(flags);
    OneBracket(flags);
    UpdateContinues(Before(), u);
    var s := BracketStart(Before(), [], u);
    assert [] + [u] == [u] && [u][1..] == [];
    assert Total(s, [u], true) == Plus(Count(s, u, true), Tally({}, {}, {}));
    assert Sync.Turn(s, u, true).ok;
    assert Target(s, u).link == OLD_LINK;
  }

  /**
   A sync whose one update ends it without HINT_SYNC: it succeeds, writes its link anew, and the
   sweep at its end takes that very link away.
   */
  lemma SilentUpdateLosesItsLink()
    ensures Bracket(Before(), [], Only(SILENT)) && MenuLinks(Before().fs, MENU) == {OLD_LINK}
    ensures BracketTotal(Before(), [], Only(SILENT)).written == {OLD_LINK}
    ensures MenuLinks(After(Before(), [Only(SILENT)], false).fs, MENU) == {}
  {
    hide Bracket, BracketTotal, After, MenuLinks, FileSystem.Snapshot;
    Surviving(SILENT);
  }

  /** Its twin with HINT_SYNC keeps it. */
  lemma HintedUpdateKeepsItsLink()
    ensures Bracket(Before(), [], Only(HINTED)) && MenuLinks(Before().fs, MENU) == {OLD_LINK}
    ensures BracketTotal(Before(), [], Only(HINTED)).written == {OLD_LINK}
    ensures MenuLinks(After(Before(), [Only(HINTED)], false).fs, MENU) == {OLD_LINK}
  {
    hide Bracket, BracketTotal, After, MenuLinks, FileSystem.Snapshot;
    Surviving(HINTED);
  }

  lemma Surviving(flags: u32)
    requires flags == SILENT || flags == HINTED
    ensures Bracket(Before(), [], Only(flags)) && MenuLinks(Before().fs, MENU) == {OLD_LINK}
    ensures BracketTotal(Before(), [], Only(flags)).written == {OLD_LINK}
    ensures MenuLinks(After(Before(), [Only(flags)], false).fs, MENU) == if flags == HINTED then {OLD_LINK} else {}
  {
    hide Bracket, BracketTotal, After, FileSystem.Snapshot, MenuLinks;
    var u := Only(flags);
    assert [] + [u] == [u];
    OneBracket(flags);
    Reported(flags);
    SurvivingLinks(Before(), [], u);
    OldLinks();
    MenuLinksInSnapshot(Before().fs, MENU, Good().faults);
    var t, snapshot := BracketTotal(Before(), [], u), BracketSnapshot(Before(), [], u);
    assert OLD_LINK in snapshot;
    assert t.updated * t.reported == if flags == HINTED then {OLD_LINK} else {};
    assert t.updated - snapshot == {};
  }

  lemma OldLinks()
    ensures MenuLinks(Before().fs, MENU) == {OLD_LINK}
  {
    LinkShape();
  }

  // ---- from the wire --------------------------------------------------------------------

  lemma SentIsMessage(flags: u32)
    requires flags == SILENT || flags == HINTED
    ensures Framed(Sent(flags)) && Received(Sent(flags)) == Message(flags)
  {
    hide Protocol.HasFlag, StringReadable, ReceivedString, Wire.WChars, ReceivedFields;
    FlagBits(flags);
    SentStrings();
    var vs := Strings(Sent(flags));
    var f := ReceivedFields(flags, vs);
    assert |f| == 5 && f[0] == Field(2, [0x61]) && f[1] == NoField && f[2] == Field(2, [0x62]) && f[3] == NoField;
    assert f[4] == Field(2, NAME);
    assert FieldsReadable(flags, vs) && FieldsSendable(flags, vs) by { SentFits(flags); }
  }

  lemma SentFits(flags: u32)
    requires flags == SILENT || flags == HINTED
    ensures FieldsReadable(flags, Strings(Sent(flags))) && FieldsSendable(flags, Strings(Sent(flags)))
  {
    hide Protocol.HasFlag, StringReadable;
    FlagBits(flags);
    SentStrings();
    assert forall v | v in Strings(Sent(flags)) && HasFlag(flags, v.bit) :: |v.text| == 2;
  }

  lemma SentStrings()
    ensures ReceivedString([0x61, 0]) == Field(2, [0x61]) && ReceivedString([0x62, 0]) == Field(2, [0x62])
    ensures ReceivedString([0x64, 0]) == Field(2, NAME)
    ensures forall s: rail, required | |s| == 2 :: StringReadable(s, required)
  {
    assert WChars([0x61, 0]) == [0x61] && WChars([0x62, 0]) == [0x62] && WChars([0x64, 0]) == NAME;
  }

  /** The twin as bytes: every premise of StreamLeavesItsLinks is met, and the link is there. */
  lemma HintedStreamKeepsItsLink()
    ensures var ps := [Sent(HINTED)];
            && SyncStream(ps) && Receive(Before(), EncodeAll(ps), _ => Good()).ok
            && MenuLinks(Receive(Before(), EncodeAll(ps), _ => Good()).st.fs, MENU) == {OLD_LINK}
  {
    hide Protocol.HasFlag, Codec.Framed, Codec.Received, Receive, Protocol.EncodeAll, HandleUpdate, MenuLinks, Room, Inv,
         CText, LinksOf;
    var ps, world: World := [Sent(HINTED)], _ => Good();
    SentIsMessage(HINTED);
    FlagBits(HINTED);
    Succeeds(HINTED);
    StreamEffect(Before(), ps, world);
    assert ReceivedAll(ps) == [Message(HINTED)];
    HandleCounted(Before(), Message(HINTED), Good(), 0);
    assert ps[1..] == [];
    assert UpdatesOf(ps, 0, world) == [Only(HINTED)];
    BeforeInv();
    HasRoom(HINTED);
    LinkOfOnly(HINTED);
    StreamLeavesItsLinks(Before(), ps, world);
  }
}
