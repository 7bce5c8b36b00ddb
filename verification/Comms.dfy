/** The channel bookkeeping of xwords4/common/comms.c: one resend queue and one save token shared by the
    channels of a device, and counters for each channel. Each operation is tied to its effect on each
    channel as `Channel` describes it. */
module Comms {
  import opened Channel

  datatype Elem = Elem(channelNo: nat, msg: Msg)

  datatype Rec = Rec(nextMsgID: nat, lastMsgAckd: nat, lastMsgRcd: nat, lastMsgSaved: nat)

  /** What is written to and read back from a stream. */
  datatype Saved = Saved(recs: map<nat, Rec>, queue: seq<Elem>, resendBackoff: nat, nextResend: nat)

  /** What has been acknowledged once whatever had to be has been. */
  function AckdAfter(rec: Rec): nat {
    if rec.lastMsgAckd < rec.lastMsgRcd then rec.lastMsgSaved else rec.lastMsgAckd
  }

  function Only(q: seq<Elem>, ch: nat): (r: seq<Msg>) {
    if q == [] then []
    else (if q[0].channelNo == ch then [q[0].msg] else []) + Only(q[1..], ch)
  }

  lemma {:induction false} OnlyConcat(q: seq<Elem>, r: seq<Elem>, ch: nat)
    ensures Only(q + r, ch) == Only(q, ch) + Only(r, ch)
    decreases |q|
  {
    if q == [] {
      assert q + r == r;
    } else {
      assert (q + r)[0] == q[0] && (q + r)[1..] == q[1..] + r;
      OnlyConcat(q[1..], r, ch);
      assert Only(q + r, ch) == (if q[0].channelNo == ch then [q[0].msg] else []) + Only(q[1..] + r, ch);
    }
  }

  lemma OnlySnoc(q: seq<Elem>, e: Elem)
    ensures forall c: nat :: Only(q + [e], c) == if c == e.channelNo then Only(q, c) + [e.msg] else Only(q, c)
  {
    forall c: nat
      ensures Only(q + [e], c) == if c == e.channelNo then Only(q, c) + [e.msg] else Only(q, c)
    {
      OnlyConcat(q, [e], c);
      assert Only([e], c) == (if c == e.channelNo then [e.msg] else []) + Only([e][1..], c);
    }
  }

  /** The queue without what is acknowledged on one channel. */
  function Without(q: seq<Elem>, ch: nat, id: nat): (r: seq<Elem>)
    ensures forall e :: e in r ==> e in q
  {
    if q == [] then []
    else
      var e := q[|q| - 1];
      Without(q[..|q| - 1], ch, id) + if e.channelNo == ch && e.msg.id <= id then [] else [e]
  }

  lemma {:induction false} UnackedConcat(q: seq<Msg>, r: seq<Msg>, id: nat)
    ensures Unacked(q + r, id) == Unacked(q, id) + Unacked(r, id)
    decreases |q|
  {
    if q == [] {
      assert q + r == r;
    } else {
      assert (q + r)[0] == q[0] && (q + r)[1..] == q[1..] + r;
      UnackedConcat(q[1..], r, id);
    }
  }

  lemma UnackedSnoc(q: seq<Msg>, m: Msg, id: nat)
    ensures Unacked(q + [m], id) == if m.id <= id then Unacked(q, id) else Unacked(q, id) + [m]
  {
    UnackedConcat(q, [m], id);
    assert Unacked([m], id) == (if m.id <= id then [] else [m]) + Unacked([m][1..], id);
  }

  lemma WithoutSnoc(q: seq<Elem>, e: Elem, ch: nat, id: nat)
    ensures Without(q + [e], ch, id) ==
            if e.channelNo == ch && e.msg.id <= id then Without(q, ch, id) else Without(q, ch, id) + [e]
  {
    assert (q + [e])[..|q|] == q;
  }

  lemma {:induction false} WithoutOnly(q: seq<Elem>, ch: nat, id: nat)
    ensures Only(Without(q, ch, id), ch) == Unacked(Only(q, ch), id)
    decreases |q|
  {
    if q != [] {
      hide Without, Only, Unacked;
      var p, e := q[..|q| - 1], q[|q| - 1];
      assert q == p + [e];
      WithoutOnly(p, ch, id);
      OnlySnoc(p, e);
      UnackedSnoc(Only(p, ch), e.msg, id);
      WithoutSnoc(p, e, ch, id);
      OnlySnoc(Without(p, ch, id), e);
    }
  }

  lemma {:induction false} WithoutOthers(q: seq<Elem>, ch: nat, id: nat, c: nat)
    requires c != ch
    ensures Only(Without(q, ch, id), c) == Only(q, c)
    decreases |q|
  {
    if q != [] {
      hide Without, Only;
      var p, e := q[..|q| - 1], q[|q| - 1];
      assert q == p + [e];
      WithoutOthers(p, ch, id, c);
      OnlySnoc(p, e);
      WithoutSnoc(p, e, ch, id);
      OnlySnoc(Without(p, ch, id), e);
    }
  }

  /** On each channel the queue is in order of message ID. */
  ghost predicate InOrder(q: seq<Elem>) {
    forall i, j :: 0 <= i < j < |q| && q[i].channelNo == q[j].channelNo ==> q[i].msg.id < q[j].msg.id
  }

  lemma {:induction false} WithoutInOrder(q: seq<Elem>, ch: nat, id: nat)
    requires InOrder(q)
    ensures InOrder(Without(q, ch, id))
    decreases |q|
  {
    if q != [] {
      var p, e := q[..|q| - 1], q[|q| - 1];
      WithoutInOrder(p, ch, id);
      var r := Without(p, ch, id);
      forall i | 0 <= i < |r| && r[i].channelNo == e.channelNo
        ensures r[i].msg.id < e.msg.id
      {
        assert r[i] in p;
      }
    }
  }

  /** The wait after one more resend, in seconds, held in 16 bits. */
  function NextBackoff(backoff: nat): nat {
    2 * (1 + backoff) % 0x1_0000
  }

  function BackoffAfter(resends: nat): nat {
    if resends == 0 then 0 else NextBackoff(BackoffAfter(resends - 1))
  }

  function Doubled(n: nat): nat {
    if n == 0 then 1 else 2 * Doubled(n - 1)
  }

  lemma {:induction false} DoubledUpTo(n: nat, m: nat)
    requires n <= m
    ensures Doubled(n) <= Doubled(m)
    decreases m - n
  {
    if n < m {
      DoubledUpTo(n + 1, m);
    }
  }

  lemma FifteenTimes()
    ensures Doubled(15) == 0x8000
  {
    assert Doubled(2) == 4;
    assert Doubled(4) == 16;
    assert Doubled(6) == 64;
    assert Doubled(8) == 256;
    assert Doubled(10) == 1024;
    assert Doubled(12) == 4096;
    assert Doubled(14) == 0x4000;
  }

  lemma OneMore(backoff: nat)
    ensures backoff < 0x7FFF ==> NextBackoff(backoff) == 2 * backoff + 2
    ensures NextBackoff(0xFFFE) == 0xFFFE
  {
  }

  /** The wait doubles, and two seconds more, from resend to resend until it takes up 16 bits, and then stays:
      no arithmetic wraps it around to a shorter one. */
  lemma {:induction false} BackoffIs(resends: nat)
    ensures BackoffAfter(resends) == if resends < 15 then Doubled(resends + 1) - 2 else 0xFFFE
    decreases resends
  {
    hide NextBackoff;
    if resends > 0 {
      var was := BackoffAfter(resends - 1);
      BackoffIs(resends - 1);
      OneMore(was);
      FifteenTimes();
      if resends <= 15 {
        DoubledUpTo(resends, 15);
        assert Doubled(resends + 1) == 2 * Doubled(resends);
      }
    }
  }

  lemma BackoffGrows(resends: nat)
    ensures BackoffAfter(resends) <= BackoffAfter(resends + 1)
  {
    BackoffIs(resends);
    BackoffIs(resends + 1);
    FifteenTimes();
    if resends < 15 {
      DoubledUpTo(resends + 1, 15);
    }
    DoubledUpTo(resends + 1, resends + 2);
  }

  class Comms {
    var recs: map<nat, Rec>
    var queue: seq<Elem>
    var lastSaveToken: nat
    var resendBackoff: nat
    var nextResend: nat

    ghost predicate Valid()
      reads this
    {
      && InOrder(queue)
      && forall e :: e in queue ==> e.channelNo in recs && 1 <= e.msg.id <= recs[e.channelNo].nextMsgID
    }

    /** This device's end of channel `ch`. */
    ghost function EndOf(ch: nat): End
      requires ch in recs
      reads this
    {
      End(recs[ch].nextMsgID, recs[ch].lastMsgRcd, recs[ch].lastMsgSaved, Only(queue, ch), lastSaveToken)
    }

    constructor (channels: set<nat>)
      ensures Valid() && recs.Keys == channels
      ensures forall ch :: ch in channels ==> EndOf(ch) == End(0, 0, 0, [], 0)
      ensures resendBackoff == nextResend == 0
    {
      recs := map ch | ch in channels :: Rec(0, 0, 0, 0);
      queue := [];
      lastSaveToken, resendBackoff, nextResend := 0, 0, 0;
    }

    /** Read back a written state: what was received when it was written is now known to be saved. */
    constructor FromStream(s: Saved)
      requires InOrder(s.queue)
      requires forall e :: e in s.queue ==> e.channelNo in s.recs && 1 <= e.msg.id <= s.recs[e.channelNo].nextMsgID
      ensures Valid() && recs.Keys == s.recs.Keys
      ensures forall ch :: ch in s.recs ==>
        EndOf(ch) == Restore(End(s.recs[ch].nextMsgID, s.recs[ch].lastMsgRcd, s.recs[ch].lastMsgSaved, Only(s.queue, ch), 0))
      ensures forall ch :: ch in s.recs ==>
        recs[ch] == Rec(s.recs[ch].nextMsgID, s.recs[ch].lastMsgAckd, s.recs[ch].lastMsgRcd, s.recs[ch].lastMsgRcd)
      ensures queue == s.queue && lastSaveToken == 0
      ensures resendBackoff == s.resendBackoff && nextResend == s.nextResend
    {
      recs := map ch | ch in s.recs :: s.recs[ch].(lastMsgSaved := s.recs[ch].lastMsgRcd);
      queue := s.queue;
      lastSaveToken, resendBackoff, nextResend := 0, s.resendBackoff, s.nextResend;
    }

    /** Append to the queue, unless the last element is the very same. */
    method AddToQueue(e: Elem)
      modifies `queue
      ensures queue == if old(queue) != [] && old(queue)[|old(queue)| - 1] == e then old(queue) else old(queue) + [e]
    {
      if queue == [] {
        queue := [e];
      } else if queue[|queue| - 1] != e {
        queue := queue + [e];
      }
    }

    /** A message on the channel, acknowledging what has been durably received. */
    method MakeElemWithID(msgID: nat, ch: nat, payload: Payload) returns (e: Elem)
      requires ch in recs
      modifies `recs
      ensures e == Elem(ch, Msg(msgID, old(recs)[ch].lastMsgSaved, payload))
      ensures recs == old(recs)[ch := old(recs)[ch].(lastMsgAckd := old(recs)[ch].lastMsgSaved)]
    {
      e := Elem(ch, Msg(msgID, recs[ch].lastMsgSaved, payload));
      recs := recs[ch := recs[ch].(lastMsgAckd := recs[ch].lastMsgSaved)];
    }

    /** Send with the next message ID and keep the message for resending; nothing is sent for an empty one. */
    method CommsSend(ch: nat, payload: Payload) returns (sent: seq<Msg>)
      requires Valid() && ch in recs
      modifies `recs, `queue
      ensures Valid() && recs.Keys == old(recs.Keys)
      ensures payload == [] ==> sent == [] && queue == old(queue) && recs == old(recs)
      ensures payload != [] ==>
        sent == [Msg(old(recs)[ch].nextMsgID + 1, old(recs)[ch].lastMsgSaved, payload)]
        && recs[ch].lastMsgAckd == old(recs)[ch].lastMsgSaved
      ensures payload != [] ==> sent == [NextMsg(old(EndOf(ch)), payload)] && EndOf(ch) == Send(old(EndOf(ch)), payload)
      ensures forall c :: c in recs && c != ch ==> EndOf(c) == old(EndOf(c))
    {
      sent := [];
      if payload != [] {
        recs := recs[ch := recs[ch].(nextMsgID := recs[ch].nextMsgID + 1)];
        var e := MakeElemWithID(recs[ch].nextMsgID, ch, payload);
        OnlySnoc(queue, e);
        assert e !in queue;
        AddToQueue(e);
        sent := [e.msg];
      }
    }

    /** A bare acknowledgement on every channel that has something new to acknowledge. */
    method AckAny() returns (sent: seq<Elem>)
      requires Valid()
      modifies `recs
      ensures Valid() && recs.Keys == old(recs.Keys)
      ensures forall e :: e in sent <==>
        e.channelNo in old(recs) && old(recs)[e.channelNo].lastMsgAckd < old(recs)[e.channelNo].lastMsgRcd
        && e.msg == AckMsg(old(EndOf(e.channelNo)))
      ensures forall c :: c in recs ==> EndOf(c) == old(EndOf(c))
      ensures forall c :: c in recs ==>
        recs[c].lastMsgAckd == AckdAfter(old(recs)[c])
    {
      sent := [];
      var todo := recs.Keys;
      while todo != {}
        invariant todo <= recs.Keys == old(recs.Keys)
        invariant forall c :: c in recs ==> recs[c].(lastMsgAckd := old(recs)[c].lastMsgAckd) == old(recs)[c]
        invariant forall c :: c in todo ==> recs[c] == old(recs)[c]
        invariant forall c :: c in recs && c !in todo ==>
          recs[c].lastMsgAckd == AckdAfter(old(recs)[c])
        invariant forall e :: e in sent <==>
          e.channelNo in old(recs) && e.channelNo !in todo
          && old(recs)[e.channelNo].lastMsgAckd < old(recs)[e.channelNo].lastMsgRcd
          && e.msg == Msg(0, old(recs)[e.channelNo].lastMsgSaved, [])
      {
        var ch :| ch in todo;
        if recs[ch].lastMsgAckd < recs[ch].lastMsgRcd {
          var e := MakeElemWithID(0, ch, []);
          sent := sent + [e];
        }
        todo := todo - {ch};
      }
    }

    /** Drop what the peer has acknowledged on this channel by rebuilding the queue without it. */
    method RemoveFromQueue(ch: nat, msgID: nat)
      requires Valid()
      modifies `queue
      ensures Valid()
      ensures ch in recs ==> Only(queue, ch) == Unacked(old(Only(queue, ch)), msgID)
      ensures forall c :: c in recs && c != ch ==> Only(queue, c) == old(Only(queue, c))
    {
      if ch in recs {
        var was := queue;
        var next := 0;
        queue := [];
        while next < |was|
          invariant 0 <= next <= |was| && queue == Without(was[..next], ch, msgID)
        {
          var elem := was[next];
          assert was[..next + 1][..next] == was[..next];
          assert elem !in was[..next];
          if elem.channelNo != ch || !(elem.msg.id <= msgID) {
            AddToQueue(elem);
          }
          next := next + 1;
        }
        assert was[..next] == was;
        WithoutOnly(was, ch, msgID);
        forall c: nat | c != ch
          ensures Only(queue, c) == Only(was, c)
        {
          WithoutOthers(was, ch, msgID, c);
        }
        WithoutInOrder(was, ch, msgID);
      }
    }

    /** Take an incoming message: use its acknowledgement, and say whether its content is to be processed. */
    method CheckIncomingStream(ch: nat, m: Msg) returns (valid: bool)
      requires Valid() && ch in recs
      modifies this
      ensures Valid() && recs == old(recs)
      ensures valid == Accepts(old(EndOf(ch)), m)
      ensures Only(queue, ch) == Unacked(old(Only(queue, ch)), m.ack)
      ensures forall c :: c in recs && c != ch ==> Only(queue, c) == old(Only(queue, c))
      ensures lastSaveToken == if m.id == old(recs)[ch].lastMsgRcd + 1 then 0 else old(lastSaveToken)
      ensures resendBackoff == if m.id == old(recs)[ch].lastMsgRcd + 1 then 0 else old(resendBackoff)
      ensures nextResend == if m.id == old(recs)[ch].lastMsgRcd + 1 then 0 else old(nextResend)
    {
      hide Only, Unacked, InOrder;
      RemoveFromQueue(ch, m.ack);
      valid := m.id == recs[ch].lastMsgRcd + 1;
      if valid && (0 == recs[ch].lastMsgRcd || recs[ch].lastMsgRcd <= m.id) {
        lastSaveToken := 0;
        ResetBackoff();
        valid := m.payload != [];
      }
    }

    method ResetBackoff()
      modifies `resendBackoff, `nextResend
      ensures resendBackoff == nextResend == 0
    {
      resendBackoff, nextResend := 0, 0;
    }

    method MsgProcessed(ch: nat, msgID: nat)
      requires ch in recs
      modifies `recs
      ensures recs == if old(recs)[ch].lastMsgRcd < msgID then old(recs)[ch := old(recs)[ch].(lastMsgRcd := msgID)] else old(recs)
    {
      if recs[ch].lastMsgRcd < msgID {
        recs := recs[ch := recs[ch].(lastMsgRcd := msgID)];
      }
    }

    /** Receive and process as one: the step the channel takes, with the token shared by the others. */
    method ReceiveAndProcess(ch: nat, m: Msg) returns (delivered: bool)
      requires Valid() && ch in recs
      modifies this
      ensures Valid() && recs.Keys == old(recs.Keys)
      ensures delivered == Accepts(old(EndOf(ch)), m)
      ensures EndOf(ch) == Receive(old(EndOf(ch)), m)
      ensures forall c :: c in recs && c != ch ==>
        EndOf(c) == old(EndOf(c)) || EndOf(c) == old(EndOf(c)).(lastSaveToken := 0)
      ensures delivered ==> resendBackoff == nextResend == 0
    {
      hide Only, Unacked;
      delivered := CheckIncomingStream(ch, m);
      if delivered {
        MsgProcessed(ch, m.id);
      }
    }

    method WriteToStream(saveToken: nat) returns (s: Saved)
      requires Valid()
      modifies `lastSaveToken
      ensures Valid() && s == Saved(recs, queue, resendBackoff, nextResend)
      ensures forall c :: c in recs ==> EndOf(c) == Write(old(EndOf(c)), saveToken)
    {
      s := Saved(recs, queue, resendBackoff, nextResend);
      lastSaveToken := saveToken;
    }

    /** If nothing has been accepted since the save was begun, all that was received is now saved, and is
        acknowledged at once where that has not been done. */
    method CommsSaveSucceeded(saveToken: nat) returns (sent: seq<Elem>)
      requires Valid()
      modifies `recs
      ensures Valid() && recs.Keys == old(recs.Keys)
      ensures forall c :: c in recs ==> EndOf(c) == SaveSucceeded(old(EndOf(c)), saveToken)
      ensures saveToken != lastSaveToken ==> sent == [] && recs == old(recs)
      ensures saveToken == lastSaveToken ==> forall e :: e in sent <==>
        e.channelNo in old(recs) && old(recs)[e.channelNo].lastMsgAckd < old(recs)[e.channelNo].lastMsgRcd
        && e.msg == Msg(0, old(recs)[e.channelNo].lastMsgRcd, [])
    {
      sent := [];
      if saveToken == lastSaveToken {
        recs := map c | c in recs :: recs[c].(lastMsgSaved := recs[c].lastMsgRcd);
        sent := AckAny();
      }
    }

    /** Whether a resend that is not forced has to wait. */
    predicate TooSoon(force: bool, now: nat)
      reads `nextResend
    {
      !force && now < nextResend
    }

    /** Resend everything queued, in order, stopping at the first failure of the transport; after all has been
        sent, wait longer each time before doing so again unforced. */
    method ResendImpl(force: bool, now: nat, failsAt: nat) returns (sent: seq<Elem>)
      requires Valid()
      modifies `resendBackoff, `nextResend
      ensures Valid()
      ensures sent == if old(TooSoon(force, now)) then [] else queue[..if failsAt < |queue| then failsAt else |queue|]
      ensures !old(TooSoon(force, now)) && failsAt >= |queue| ==> forall ch :: Only(sent, ch) == Only(queue, ch)
      ensures if !force && now >= old(nextResend) && queue != [] && failsAt >= |queue| then
                resendBackoff == NextBackoff(old(resendBackoff)) && nextResend == now + resendBackoff
              else resendBackoff == old(resendBackoff) && nextResend == old(nextResend)
    {
      sent := [];
      if TooSoon(force, now) || queue == [] {
        return;
      }
      var i := 0;
      while i < |queue|
        invariant 0 <= i <= |queue| && i <= failsAt && sent == queue[..i]
      {
        if i == failsAt {
          return;
        }
        sent := sent + [queue[i]];
        i := i + 1;
      }
      assert sent == queue;
      if !force {
        resendBackoff := NextBackoff(resendBackoff);
        nextResend := now + resendBackoff;
      }
    }
  }
}
