/**
 The server's receive side: PDUs are read through a stream position that is moved to the end
 each header declares, whatever was actually read.
 */
module ServerLoop {
  import opened Wire
  import opened Protocol

  datatype ClientCaps = ClientCaps(version: u16, language: seq<byte>)

  // ---- what one PDU does ----------------------------------------------------------------

  /** Result of one PDU: how far it was read, where the position ends up, what was delivered. */
  datatype PduResult = PduResult(error: bool, read: nat, next: nat, caps: Option<ClientCaps>)

  function HeaderAt(data: seq<byte>, pos: nat): Header
    requires pos + HEADER_SIZE <= |data|
  {
    Header(GetU32(data[pos..]).value, GetU32(data[pos + 4..]).value)
  }

  /** The outcome of receiving at a position; accepts is the answer of the caps callback. */
  function PduAt(data: seq<byte>, pos: nat, accepts: bool): PduResult
    requires pos <= |data|
  {
    if pos + HEADER_SIZE > |data| then PduResult(true, pos, pos, None)
    else
      var h := HeaderAt(data, pos);
      var next := pos + h.length;
      if h.cmdId != CMDID_CAPS then PduResult(true, pos + 8, next, None)
      else if pos + 10 > |data| then PduResult(true, pos + 8, next, None)
      else if pos + 10 + LANG_SIZE > |data| then PduResult(true, pos + 10, next, None)
      else
        PduResult(!accepts, pos + 10 + LANG_SIZE, next,
                  Some(ClientCaps(GetU16(data[pos + 8..]).value, data[pos + 10..pos + 10 + LANG_SIZE])))
  }

  /** The state of the message loop after a number of rounds. */
  datatype LoopState = Running(pos: nat, seen: seq<ClientCaps>) | Finished(error: bool, seen: seq<ClientCaps>)

  function Deliver(seen: seq<ClientCaps>, caps: Option<ClientCaps>): seq<ClientCaps> {
    if caps.Some? then seen + [caps.value] else seen
  }

  function Rounds(data: seq<byte>, pos: nat, seen: seq<ClientCaps>, accepts: bool, n: nat): LoopState
    decreases n
  {
    if pos >= |data| then Finished(false, seen)
    else if n == 0 then Running(pos, seen)
    else
      var r := PduAt(data, pos, accepts);
      if r.error then Finished(true, Deliver(seen, r.caps))
      else Rounds(data, r.next, Deliver(seen, r.caps), accepts, n - 1)
  }

  // ---- the stream and the loop ----------------------------------------------------------

  class InputStream {
    const data: seq<byte>
    var pos: nat

    constructor (data: seq<byte>)
      ensures this.data == data && pos == 0
    {
      this.data := data;
      pos := 0;
    }

    method ReadUINT16() returns (x: u16)
      requires pos + 2 <= |data|
      modifies this
      ensures pos == old(pos) + 2 && x == GetU16(data[old(pos)..]).value
    {
      x := GetU16(data[pos..]).value;
      pos := pos + 2;
    }

    method ReadUINT32() returns (x: u32)
      requires pos + 4 <= |data|
      modifies this
      ensures pos == old(pos) + 4 && x == GetU32(data[old(pos)..]).value
    {
      x := GetU32(data[pos..]).value;
      pos := pos + 4;
    }

    method Read(n: nat) returns (b: seq<byte>)
      requires pos + n <= |data|
      modifies this
      ensures pos == old(pos) + n && b == data[old(pos)..old(pos) + n]
    {
      b := data[pos..pos + n];
      pos := pos + n;
    }
  }

  method RecvCapsPdu(s: InputStream, accepts: bool) returns (error: bool, caps: Option<ClientCaps>)
    requires s.pos <= |s.data|
    modifies s
    ensures if old(s.pos) + 2 > |s.data| then error && caps.None? && s.pos == old(s.pos)
            else if old(s.pos) + 2 + LANG_SIZE > |s.data| then error && caps.None? && s.pos == old(s.pos) + 2
            else error == !accepts && s.pos == old(s.pos) + 2 + LANG_SIZE &&
                 caps == Some(ClientCaps(GetU16(s.data[old(s.pos)..]).value,
                                         s.data[old(s.pos) + 2..old(s.pos) + 2 + LANG_SIZE]))
  {
    error, caps := true, None;
    if |s.data| - s.pos < 2 {
      return;
    }
    var version := s.ReadUINT16();
    if |s.data| - s.pos < LANG_SIZE {
      return;
    }
    var language := s.Read(LANG_SIZE);
    error, caps := !accepts, Some(ClientCaps(version, language));
  }

  /** One PDU: after a readable header the position is always the declared end. */
  method ReceivePdu(s: InputStream, accepts: bool) returns (error: bool, caps: Option<ClientCaps>)
    requires s.pos <= |s.data|
    modifies s
    ensures var r := PduAt(s.data, old(s.pos), accepts);
            error == r.error && caps == r.caps && s.pos == r.next
  {
    hide Wire.GetU32, Wire.GetU16;
    error, caps := true, None;
    var beg := s.pos;
    if |s.data| - s.pos < 8 {
      return;
    }
    var cmdId := s.ReadUINT32();
    var length := s.ReadUINT32();
    if cmdId == CMDID_CAPS {
      error, caps := RecvCapsPdu(s, accepts);
    }
    if s.pos != beg + length {
      s.pos := beg + length;
    }
  }

  /** The message loop, followed for at most a given number of rounds. */
  method HandleMessages(data: seq<byte>, accepts: bool, rounds: nat) returns (end: LoopState)
    ensures end == Rounds(data, 0, [], accepts, rounds)
  {
    hide PduAt;
    var s := new InputStream(data);
    var seen: seq<ClientCaps> := [];
    var n := rounds;
    while s.pos < |data| && n > 0
      invariant s.data == data
      invariant Rounds(data, s.pos, seen, accepts, n) == Rounds(data, 0, [], accepts, rounds)
      decreases n
    {
      var error, caps := ReceivePdu(s, accepts);
      seen := Deliver(seen, caps);
      if error {
        return Finished(true, seen);
      }
      n := n - 1;
    }
    end := if s.pos >= |data| then Finished(false, seen) else Running(s.pos, seen);
  }

  // ---- termination ----------------------------------------------------------------------

  /** A complete, accepted caps PDU whose header declares length 0: the position never moves. */
  predicate Stuck(data: seq<byte>, pos: nat, accepts: bool) {
    accepts && pos + 10 + LANG_SIZE <= |data| && HeaderAt(data, pos) == Header(CMDID_CAPS, 0)
  }

  lemma StuckOrForward(data: seq<byte>, pos: nat, accepts: bool)
    requires pos < |data|
    ensures var r := PduAt(data, pos, accepts);
            !r.error ==> if Stuck(data, pos, accepts) then r.next == pos else r.next > pos
    ensures Stuck(data, pos, accepts) ==> !PduAt(data, pos, accepts).error
  {
    hide Wire.GetU32, Wire.GetU16;
  }

  lemma {:induction false} StuckForever(data: seq<byte>, pos: nat, seen: seq<ClientCaps>, accepts: bool, n: nat)
    requires Stuck(data, pos, accepts)
    ensures Rounds(data, pos, seen, accepts, n).Running?
    decreases n
  {
    hide PduAt, Stuck;
    StuckInside(data, pos, accepts);
    if n > 0 {
      StuckOrForward(data, pos, accepts);
      StuckForever(data, pos, Deliver(seen, PduAt(data, pos, accepts).caps), accepts, n - 1);
    }
  }

  lemma StuckInside(data: seq<byte>, pos: nat, accepts: bool)
    requires Stuck(data, pos, accepts)
    ensures pos < |data|
  {
  }

  // Either the loop has finished after as many rounds as bytes are left, or it is stuck for good.
  lemma {:induction false} FinishesOrSticks(data: seq<byte>, pos: nat, seen: seq<ClientCaps>, accepts: bool, n: nat)
    requires pos + n >= |data|
    ensures var r := Rounds(data, pos, seen, accepts, n);
            r.Running? ==> Stuck(data, r.pos, accepts) && forall k: nat :: Rounds(data, pos, seen, accepts, k).Running?
    decreases n
  {
    hide PduAt, Stuck;
    if pos < |data| {
      StuckOrForward(data, pos, accepts);
      var r := PduAt(data, pos, accepts);
      if Stuck(data, pos, accepts) {
        forall k: nat ensures Rounds(data, pos, seen, accepts, k).Running? {
          StuckForever(data, pos, seen, accepts, k);
        }
        StuckStays(data, pos, seen, accepts, n);
      } else if !r.error {
        FinishesOrSticks(data, r.next, Deliver(seen, r.caps), accepts, n - 1);
        forall k: nat
          ensures k > 0 ==> Rounds(data, pos, seen, accepts, k) ==
                            Rounds(data, r.next, Deliver(seen, r.caps), accepts, k - 1)
        {
        }
      }
    }
  }

  lemma {:induction false} StuckStays(data: seq<byte>, pos: nat, seen: seq<ClientCaps>, accepts: bool, n: nat)
    requires Stuck(data, pos, accepts)
    ensures var r := Rounds(data, pos, seen, accepts, n);
            r.Running? && r.pos == pos
    decreases n
  {
    hide PduAt, Stuck;
    StuckInside(data, pos, accepts);
    if n > 0 {
      StuckOrForward(data, pos, accepts);
      StuckStays(data, pos, Deliver(seen, PduAt(data, pos, accepts).caps), accepts, n - 1);
    }
  }

  // Whether the loop ends shows within as many rounds as the buffer has bytes.
  lemma LoopSettles(data: seq<byte>, accepts: bool)
    ensures (exists n: nat :: Rounds(data, 0, [], accepts, n).Finished?) <==>
            Rounds(data, 0, [], accepts, |data|).Finished?
    ensures var r := Rounds(data, 0, [], accepts, |data|);
            r.Running? ==> Stuck(data, r.pos, accepts)
  {
    FinishesOrSticks(data, 0, [], accepts, |data|);
  }

  /** The position a number of hops further on, each by the length declared where it starts. */
  function Hop(data: seq<byte>, pos: nat, k: nat): nat
    decreases k
  {
    if k == 0 then pos
    else Hop(data, if pos + HEADER_SIZE <= |data| then pos + HeaderAt(data, pos).length else pos, k - 1)
  }

  // A complete caps PDU stands here.
  predicate CapsAt(data: seq<byte>, pos: nat) {
    pos + 10 + LANG_SIZE <= |data| && HeaderAt(data, pos).cmdId == CMDID_CAPS
  }

  /** Complete caps PDUs stand at the first k + 1 hops, and the last of them declares length 0. */
  ghost predicate ZeroAfter(data: seq<byte>, pos: nat, k: nat) {
    (forall j: nat | j <= k :: CapsAt(data, Hop(data, pos, j))) && HeaderAt(data, Hop(data, pos, k)).length == 0
  }

  // What succeeds is an accepted, complete caps PDU, and it moves the position by one hop.
  lemma SuccessIsCaps(data: seq<byte>, pos: nat, accepts: bool)
    requires pos <= |data|
    ensures !PduAt(data, pos, accepts).error <==> accepts && CapsAt(data, pos)
    ensures CapsAt(data, pos) ==>
              pos + HEADER_SIZE <= |data| && PduAt(data, pos, accepts).next == pos + HeaderAt(data, pos).length
  {
    hide Wire.GetU32, Wire.GetU16;
  }

  lemma FirstHop(data: seq<byte>, pos: nat, k: nat)
    requires CapsAt(data, pos)
    ensures pos + HEADER_SIZE <= |data| && Hop(data, pos, k + 1) == Hop(data, pos + HeaderAt(data, pos).length, k)
    ensures Stuck(data, pos, true) <==> HeaderAt(data, pos).length == 0
  {
    hide Wire.GetU32;
  }

  lemma {:induction false} ZeroHangs(data: seq<byte>, pos: nat, seen: seq<ClientCaps>, k: nat, n: nat)
    requires ZeroAfter(data, pos, k)
    ensures Rounds(data, pos, seen, true, n).Running?
    decreases k
  {
    hide PduAt, CapsAt, HeaderAt, Stuck;
    assert CapsAt(data, Hop(data, pos, 0));
    FirstHop(data, pos, 0);
    var next := pos + HeaderAt(data, pos).length;
    if next == pos {
      StuckForever(data, pos, seen, true, n);
    } else if n > 0 {
      SuccessIsCaps(data, pos, true);
      forall j: nat | j <= k - 1 ensures CapsAt(data, Hop(data, next, j)) {
        FirstHop(data, pos, j);
        assert CapsAt(data, Hop(data, pos, j + 1));
      }
      FirstHop(data, pos, k - 1);
      ZeroHangs(data, next, Deliver(seen, PduAt(data, pos, true).caps), k - 1, n - 1);
    }
  }

  lemma {:induction false} RunningMeetsZero(data: seq<byte>, pos: nat, seen: seq<ClientCaps>, accepts: bool, n: nat)
    returns (k: nat)
    requires pos + n >= |data| && Rounds(data, pos, seen, accepts, n).Running?
    ensures accepts && ZeroAfter(data, pos, k)
    decreases n
  {
    hide PduAt, CapsAt, HeaderAt, Stuck;
    SuccessIsCaps(data, pos, accepts);
    var next := pos + HeaderAt(data, pos).length;
    if next == pos {
      k := 0;
      assert Hop(data, pos, 0) == pos;
    } else {
      var k' := RunningMeetsZero(data, next, Deliver(seen, PduAt(data, pos, accepts).caps), accepts, n - 1);
      k := k' + 1;
      FirstHop(data, pos, k');
      forall j: nat | j <= k ensures CapsAt(data, Hop(data, pos, j)) {
        if j > 0 {
          FirstHop(data, pos, j - 1);
        }
      }
    }
  }

  /**
   The loop terminates on a buffer except in one case, told from the bytes alone: the caps
   callback accepts, and following the declared lengths from the start leads through complete
   caps PDUs to one that declares length 0.
   */
  lemma LoopTerminatesExactly(data: seq<byte>, accepts: bool)
    ensures (exists n: nat :: Rounds(data, 0, [], accepts, n).Finished?) <==>
            !(accepts && exists k: nat :: ZeroAfter(data, 0, k))
  {
    hide ZeroAfter;
    if accepts && exists k: nat :: ZeroAfter(data, 0, k) {
      var k: nat :| ZeroAfter(data, 0, k);
      forall n: nat ensures Rounds(data, 0, [], accepts, n).Running? {
        ZeroHangs(data, 0, [], k, n);
      }
    } else {
      if Rounds(data, 0, [], accepts, |data|).Running? {
        var k := RunningMeetsZero(data, 0, [], accepts, |data|);
      }
      assert Rounds(data, 0, [], accepts, |data|).Finished?;
    }
  }

  /** In particular whenever every declared length it can come upon is positive. */
  lemma PositiveLengthsTerminate(data: seq<byte>, accepts: bool)
    requires forall k: nat | Hop(data, 0, k) + HEADER_SIZE <= |data| :: HeaderAt(data, Hop(data, 0, k)).length > 0
    ensures Rounds(data, 0, [], accepts, |data|).Finished?
  {
    hide HeaderAt;
    if Rounds(data, 0, [], accepts, |data|).Running? {
      var k := RunningMeetsZero(data, 0, [], accepts, |data|);
      CapsHasHeader(data, k);
    }
  }

  lemma CapsHasHeader(data: seq<byte>, k: nat)
    requires ZeroAfter(data, 0, k)
    ensures Hop(data, 0, k) + HEADER_SIZE <= |data|
  {
    assert CapsAt(data, Hop(data, 0, k));
  }

  /** And a single accepted caps PDU with length 0 keeps it running forever. */
  lemma ZeroLengthHangs(version: u16, lang: language, n: nat)
    ensures Rounds(Le32(CMDID_CAPS) + (Le32(0) + (Le16(version) + lang)), 0, [], true, n).Running?
  {
    hide Wire.Le32, Wire.Le16, Wire.GetU32;
    var t := Le16(version) + lang;
    var data := Le32(CMDID_CAPS) + (Le32(0) + t);
    U32RoundTrip(CMDID_CAPS, Le32(0) + t);
    U32RoundTrip(0, t);
    assert data[0..] == data && data[4..] == Le32(0) + t;
    StuckForever(data, 0, [], true, n);
  }

  // ---- the client's reply ---------------------------------------------------------------

  const REPLY_SIZE: int := 42

  type language = s: seq<byte> | |s| == LANG_SIZE witness seq(LANG_SIZE, _ => 0)

  /** The caps reply of the receiver: header, version and a 32-byte language id. */
  function ReplyBytes(lang: language): seq<byte> {
    Le32(CMDID_CAPS) + (Le32(REPLY_SIZE) + (Le16(CHANNEL_VERSION) + lang))
  }

  function RepliesBytes(langs: seq<language>): seq<byte> {
    if langs == [] then [] else ReplyBytes(langs[0]) + RepliesBytes(langs[1..])
  }

  function CapsOf(langs: seq<language>): seq<ClientCaps> {
    if langs == [] then [] else [ClientCaps(CHANNEL_VERSION, langs[0])] + CapsOf(langs[1..])
  }

  /** A reply is read to its last byte, so the position needs no correction. */
  lemma ReplyReadExactly(before: seq<byte>, lang: language, rest: seq<byte>, accepts: bool)
    ensures var r := PduAt(before + ReplyBytes(lang) + rest, |before|, accepts);
            && r.error == !accepts && r.caps == Some(ClientCaps(CHANNEL_VERSION, lang))
            && r.read == r.next == |before| + REPLY_SIZE
  {
    hide Wire.Le32, Wire.Le16, Wire.GetU32, Wire.GetU16;
    var data, b := before + ReplyBytes(lang) + rest, |before|;
    var t3 := lang + rest;
    var t2 := Le16(CHANNEL_VERSION) + t3;
    var t1 := Le32(REPLY_SIZE) + t2;
    assert data[b..] == Le32(CMDID_CAPS) + t1;
    assert data[b + 4..] == t1;
    assert data[b + 8..] == t2;
    assert data[b + 10..] == t3;
    U32RoundTrip(CMDID_CAPS, t1);
    U32RoundTrip(REPLY_SIZE, t2);
    U16RoundTrip(CHANNEL_VERSION, t3);
    assert data[b + 10..b + 10 + LANG_SIZE] == data[b + 10..][..LANG_SIZE] == lang;
  }

  lemma {:induction false} RepliesFrom(before: seq<byte>, langs: seq<language>, seen: seq<ClientCaps>, n: nat)
    requires n >= |langs|
    ensures Rounds(before + RepliesBytes(langs), |before|, seen, true, n) == Finished(false, seen + CapsOf(langs))
    decreases |langs|
  {
    hide PduAt, ReplyBytes;
    if langs == [] {
      assert before + [] == before && seen + [] == seen;
    } else {
      var rest := RepliesBytes(langs[1..]);
      ReplySize(langs[0]);
      ReplyReadExactly(before, langs[0], rest, true);
      assert before + RepliesBytes(langs) == before + ReplyBytes(langs[0]) + rest;
      RepliesFrom(before + ReplyBytes(langs[0]), langs[1..], seen + [ClientCaps(CHANNEL_VERSION, langs[0])], n - 1);
      assert seen + [ClientCaps(CHANNEL_VERSION, langs[0])] + CapsOf(langs[1..]) == seen + CapsOf(langs);
    }
  }

  lemma ReplySize(lang: language)
    ensures |ReplyBytes(lang)| == REPLY_SIZE
  {
    hide Wire.Le32, Wire.Le16;
  }

  /** Any number of replies, however they are batched, is consumed exactly and delivered in order. */
  lemma RepliesRoundTrip(langs: seq<language>)
    ensures Rounds(RepliesBytes(langs), 0, [], true, |langs|) == Finished(false, CapsOf(langs))
  {
    RepliesFrom([], langs, [], |langs|);
    assert [] + RepliesBytes(langs) == RepliesBytes(langs);
    assert [] + CapsOf(langs) == CapsOf(langs);
  }
}
