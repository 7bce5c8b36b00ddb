/** Two ends joined by a network that loses, repeats and reorders, one of which may crash and come back
    from its last complete save. */
module Protocol {
  import opened Channel

  /** What a save holds: the end's own state and what the game had received with it. */
  datatype Image = Image(end: End, delivered: seq<Payload>, sent: seq<Payload>)

  /** One party: its channel end, what its game has received and sent so far, the last save on disk,
      saves under way in the order they were begun, and tokens of saves that have reached the disk.
      `rcdAt` remembers lastMsgRcd as written with each token. */
  datatype Party = Party(end: End, delivered: seq<Payload>, sent: seq<Payload>,
                         disk: Image, underway: seq<(nat, Image)>, onDisk: set<nat>, rcdAt: map<nat, nat>)

  /** `toB` and `toA` hold every message ever put on the wire; any of them may arrive at any time. */
  datatype World = World(a: Party, b: Party, toA: set<Msg>, toB: set<Msg>)

  datatype Action =
    | SendA(payload: Payload) | SendB(payload: Payload)
    | AckA | AckB
    | ReceiveA(msg: Msg) | ReceiveB(msg: Msg)
    | WriteA(token: nat) | WriteB(token: nat)
    | PersistA | PersistB
    | SavedA(token: nat) | SavedB(token: nat)
    | OtherA | OtherB
    | CrashB

  function PartySend(p: Party, payload: Payload): Party {
    p.(end := Send(p.end, payload), sent := p.sent + [payload])
  }

  function PartyReceive(p: Party, m: Msg): Party {
    p.(end := Receive(p.end, m),
       delivered := if Accepts(p.end, m) then p.delivered + [m.payload] else p.delivered)
  }

  function PartyWrite(p: Party, token: nat): Party {
    p.(end := Write(p.end, token),
       underway := p.underway + [(token, Image(p.end, p.delivered, p.sent))],
       rcdAt := p.rcdAt[token := p.end.lastMsgRcd])
  }

  /** Saves reach the disk in the order they were begun. */
  function PartyPersist(p: Party): Party
    requires p.underway != []
  {
    p.(disk := p.underway[0].1, underway := p.underway[1..], onDisk := p.onDisk + {p.underway[0].0})
  }

  function PartySaved(p: Party, token: nat): Party {
    p.(end := SaveSucceeded(p.end, token))
  }

  /** A message accepted on another channel of the same device voids the save token. */
  function PartyOther(p: Party): Party {
    p.(end := p.end.(lastSaveToken := 0))
  }

  function PartyCrash(p: Party): Party {
    p.(end := Restore(p.disk.end), delivered := p.disk.delivered, sent := p.disk.sent, underway := [])
  }

  /** When an action may happen: content is never empty, tokens are new and not zero, only messages on the
      wire arrive, and success is only reported of saves that are on disk. */
  predicate Enabled(w: World, x: Action) {
    match x
    case SendA(payload) => payload != []
    case SendB(payload) => payload != []
    case AckA => true
    case AckB => true
    case ReceiveA(m) => m in w.toA
    case ReceiveB(m) => m in w.toB
    case WriteA(token) => token != 0 && token !in w.a.rcdAt
    case WriteB(token) => token != 0 && token !in w.b.rcdAt
    case PersistA => w.a.underway != []
    case PersistB => w.b.underway != []
    case SavedA(token) => token in w.a.onDisk
    case SavedB(token) => token in w.b.onDisk
    case OtherA => true
    case OtherB => true
    case CrashB => true
  }

  function Step(w: World, x: Action): World
    requires Enabled(w, x)
  {
    match x
    case SendA(payload) => w.(a := PartySend(w.a, payload), toB := w.toB + {NextMsg(w.a.end, payload)})
    case SendB(payload) => w.(b := PartySend(w.b, payload), toA := w.toA + {NextMsg(w.b.end, payload)})
    case AckA => w.(toB := w.toB + {AckMsg(w.a.end)})
    case AckB => w.(toA := w.toA + {AckMsg(w.b.end)})
    case ReceiveA(m) => w.(a := PartyReceive(w.a, m))
    case ReceiveB(m) => w.(b := PartyReceive(w.b, m))
    case WriteA(token) => w.(a := PartyWrite(w.a, token))
    case WriteB(token) => w.(b := PartyWrite(w.b, token))
    case PersistA => w.(a := PartyPersist(w.a))
    case PersistB => w.(b := PartyPersist(w.b))
    case SavedA(token) => w.(a := PartySaved(w.a, token))
    case SavedB(token) => w.(b := PartySaved(w.b, token))
    case OtherA => w.(a := PartyOther(w.a))
    case OtherB => w.(b := PartyOther(w.b))
    case CrashB => w.(b := PartyCrash(w.b))
  }

  const FreshEnd: End := End(0, 0, 0, [], 0)
  const FreshParty: Party := Party(FreshEnd, [], [], Image(FreshEnd, [], []), [], {}, map[])
  const Start: World := World(FreshParty, FreshParty, {}, {})

  ghost predicate Possible(w: World, run: seq<Action>)
    decreases |run|
  {
    run == [] || (Enabled(w, run[0]) && Possible(Step(w, run[0]), run[1..]))
  }

  function After(w: World, run: seq<Action>): World
    requires Possible(w, run)
    decreases |run|
  {
    if run == [] then w else After(Step(w, run[0]), run[1..])
  }

  /** The messages with IDs above `k`, as sent: one for each payload, in order, whatever their acks. */
  ghost predicate HoldsFrom(q: seq<Msg>, sent: seq<Payload>, k: nat) {
    && k <= |sent| && |q| == |sent| - k
    && forall i :: 0 <= i < |q| ==> q[i].id == k + i + 1 && q[i].payload == sent[k + i]
  }

  ghost predicate Genuine(m: Msg, sent: seq<Payload>) {
    if m.id == 0 then m.payload == [] else m.id <= |sent| && m.payload == sent[m.id - 1]
  }

  ghost predicate ImageOk(g: Image, sent: seq<Payload>, rcd: nat) {
    && g.end.lastMsgRcd == |g.delivered| <= rcd && g.delivered <= sent
  }

  /** The receiving party, for the direction from a sender that has sent `sent`. */
  ghost predicate ReceiverOk(r: Party, sent: seq<Payload>) {
    && r.end.lastMsgRcd == |r.delivered| && r.delivered <= sent
    && r.end.lastMsgSaved <= r.disk.end.lastMsgRcd
    && ImageOk(r.disk, sent, r.end.lastMsgRcd)
    && (forall i :: 0 <= i < |r.underway| ==>
         ImageOk(r.underway[i].1, sent, r.end.lastMsgRcd)
         && r.disk.end.lastMsgRcd <= r.underway[i].1.end.lastMsgRcd
         && r.underway[i].0 in r.rcdAt && r.rcdAt[r.underway[i].0] == r.underway[i].1.end.lastMsgRcd)
    && (forall i, j :: 0 <= i < j < |r.underway| ==>
         r.underway[i].1.end.lastMsgRcd <= r.underway[j].1.end.lastMsgRcd)
    && (forall t :: t in r.onDisk ==> t in r.rcdAt && r.rcdAt[t] <= r.disk.end.lastMsgRcd)
    && (0 !in r.rcdAt)
    && (r.end.lastSaveToken != 0 ==>
         r.end.lastSaveToken in r.rcdAt && r.rcdAt[r.end.lastSaveToken] == r.end.lastMsgRcd)
  }

  /** One direction, from `s` to `r`: what every message on the wire satisfies, and that whatever is no
      longer kept for resending is on the receiver's disk. */
  ghost predicate DirectionOk(s: Party, r: Party, wire: set<Msg>, back: set<Msg>) {
    && ReceiverOk(r, s.sent)
    && s.end.nextMsgID == |s.sent| && (forall i :: 0 <= i < |s.sent| ==> s.sent[i] != [])
    && (forall m :: m in wire ==> Genuine(m, s.sent))
    && (forall m :: m in s.end.queue ==> m in wire)
    && (forall m :: m in back ==> m.ack <= r.disk.end.lastMsgRcd)
    && QueueOk(s, r)
  }

  /** The sender still holds every message that is not on the receiver's disk. */
  ghost predicate QueueOk(s: Party, r: Party) {
    exists k :: 0 <= k <= r.disk.end.lastMsgRcd && HoldsFrom(s.end.queue, s.sent, k)
  }

  lemma HoldsRest(q: seq<Msg>, sent: seq<Payload>, k: nat)
    requires q != [] && HoldsFrom(q, sent, k)
    ensures HoldsFrom(q[1..], sent, k + 1) && q[0].id == k + 1
  {
  }

  lemma {:induction false} NoneAcked(q: seq<Msg>, sent: seq<Payload>, k: nat, id: nat)
    requires HoldsFrom(q, sent, k) && id <= k
    ensures Unacked(q, id) == q
    decreases |q|
  {
    hide HoldsFrom;
    if q != [] {
      HoldsRest(q, sent, k);
      NoneAcked(q[1..], sent, k + 1, id);
      assert q == [q[0]] + q[1..];
    }
  }

  /** An acknowledgement trims the queue from the front. */
  lemma {:induction false} UnackedHolds(q: seq<Msg>, sent: seq<Payload>, k: nat, id: nat)
    requires HoldsFrom(q, sent, k) && id <= |sent|
    ensures HoldsFrom(Unacked(q, id), sent, if k < id then id else k)
    decreases |q|
  {
    if id <= k {
      NoneAcked(q, sent, k, id);
    } else if q != [] {
      HoldsRest(q, sent, k);
      hide HoldsFrom;
      UnackedHolds(q[1..], sent, k + 1, id);
      assert Unacked(q, id) == Unacked(q[1..], id);
    }
  }

  // What each kind of step keeps, for the direction from `s` to `r`.

  lemma SenderSends(s: Party, r: Party, wire: set<Msg>, back: set<Msg>, payload: Payload)
    requires DirectionOk(s, r, wire, back) && payload != []
    ensures DirectionOk(PartySend(s, payload), r, wire + {NextMsg(s.end, payload)}, back)
  {
    var s' := PartySend(s, payload);
    var k :| 0 <= k <= r.disk.end.lastMsgRcd && HoldsFrom(s.end.queue, s.sent, k);
    assert HoldsFrom(s'.end.queue, s'.sent, k);
    assert ReceiverOk(r, s'.sent);
  }

  lemma SenderReceives(s: Party, r: Party, wire: set<Msg>, back: set<Msg>, m: Msg)
    requires DirectionOk(s, r, wire, back) && m in back
    ensures DirectionOk(PartyReceive(s, m), r, wire, back)
  {
    var k :| 0 <= k <= r.disk.end.lastMsgRcd && HoldsFrom(s.end.queue, s.sent, k);
    UnackedHolds(s.end.queue, s.sent, k, m.ack);
  }

  lemma ReceiverReceives(s: Party, r: Party, wire: set<Msg>, back: set<Msg>, m: Msg)
    requires DirectionOk(s, r, wire, back) && m in wire
    ensures DirectionOk(s, PartyReceive(r, m), wire, back)
  {
    var r' := PartyReceive(r, m);
    var k :| 0 <= k <= r.disk.end.lastMsgRcd && HoldsFrom(s.end.queue, s.sent, k);
    if Accepts(r.end, m) {
      assert s.sent[..m.id] == r.delivered + [m.payload];
    }
  }

  lemma ReceiverWrites(s: Party, r: Party, wire: set<Msg>, back: set<Msg>, token: nat)
    requires DirectionOk(s, r, wire, back) && token != 0 && token !in r.rcdAt
    ensures DirectionOk(s, PartyWrite(r, token), wire, back)
  {
    var k :| 0 <= k <= r.disk.end.lastMsgRcd && HoldsFrom(s.end.queue, s.sent, k);
    assert QueueOk(s, PartyWrite(r, token));
  }

  lemma ReceiverPersists(s: Party, r: Party, wire: set<Msg>, back: set<Msg>)
    requires DirectionOk(s, r, wire, back) && r.underway != []
    ensures DirectionOk(s, PartyPersist(r), wire, back)
  {
    var k :| 0 <= k <= r.disk.end.lastMsgRcd && HoldsFrom(s.end.queue, s.sent, k);
    var r' := PartyPersist(r);
    assert forall i :: 0 <= i < |r'.underway| ==> r'.underway[i] == r.underway[i + 1];
    assert QueueOk(s, r');
  }

  lemma ReceiverSaved(s: Party, r: Party, wire: set<Msg>, back: set<Msg>, token: nat)
    requires DirectionOk(s, r, wire, back) && token in r.onDisk
    ensures DirectionOk(s, PartySaved(r, token), wire, back)
  {
    var k :| 0 <= k <= r.disk.end.lastMsgRcd && HoldsFrom(s.end.queue, s.sent, k);
    assert QueueOk(s, PartySaved(r, token));
  }

  lemma ReceiverCrashes(s: Party, r: Party, wire: set<Msg>, back: set<Msg>)
    requires DirectionOk(s, r, wire, back)
    ensures DirectionOk(s, PartyCrash(r), wire, back)
    ensures DirectionOk(s, PartyOther(r), wire, back)
  {
    var k :| 0 <= k <= r.disk.end.lastMsgRcd && HoldsFrom(s.end.queue, s.sent, k);
    assert QueueOk(s, PartyCrash(r)) && QueueOk(s, PartyOther(r));
  }

  /** What the receiver itself sends carries an acknowledgement of saved messages only. */
  lemma ReceiverReplies(s: Party, r: Party, wire: set<Msg>, back: set<Msg>, payload: Payload)
    requires DirectionOk(s, r, wire, back)
    ensures DirectionOk(s, PartySend(r, payload), wire, back + {NextMsg(r.end, payload)})
    ensures DirectionOk(s, r, wire, back + {AckMsg(r.end)})
  {
    var k :| 0 <= k <= r.disk.end.lastMsgRcd && HoldsFrom(s.end.queue, s.sent, k);
    assert QueueOk(s, PartySend(r, payload));
  }

  /** Saving at the sender, and its bare acknowledgements, do not touch this direction. */
  lemma SenderSaves(s: Party, r: Party, wire: set<Msg>, back: set<Msg>, token: nat)
    requires DirectionOk(s, r, wire, back)
    ensures DirectionOk(PartyWrite(s, token), r, wire, back)
    ensures s.underway != [] ==> DirectionOk(PartyPersist(s), r, wire, back)
    ensures DirectionOk(PartySaved(s, token), r, wire, back)
    ensures DirectionOk(PartyOther(s), r, wire, back)
    ensures DirectionOk(s, r, wire + {AckMsg(s.end)}, back)
  {
    var k :| 0 <= k <= r.disk.end.lastMsgRcd && HoldsFrom(s.end.queue, s.sent, k);
    assert QueueOk(PartyWrite(s, token), r) && QueueOk(PartySaved(s, token), r) && QueueOk(PartyOther(s), r);
    assert s.underway != [] ==> QueueOk(PartyPersist(s), r);
  }

  ghost predicate AToB(w: World) {
    DirectionOk(w.a, w.b, w.toB, w.toA)
  }

  ghost predicate BToA(w: World) {
    DirectionOk(w.b, w.a, w.toA, w.toB)
  }

  /** Every step keeps the direction to the party that may crash; every other step keeps both. */
  lemma StepKeeps(w: World, x: Action)
    requires Enabled(w, x)
    ensures AToB(w) ==> AToB(Step(w, x))
    ensures BToA(w) && x != CrashB ==> BToA(Step(w, x))
  {
    hide DirectionOk, AToB, BToA, Step, Enabled;
    if AToB(w) {
      AToBStep(w, x);
    }
    if BToA(w) && x != CrashB {
      BToAStep(w, x);
    }
  }

  lemma AToBStep(w: World, x: Action)
    requires Enabled(w, x) && AToB(w)
    ensures AToB(Step(w, x))
  {
    hide DirectionOk;
    match x
    case SendA(payload) => SenderSends(w.a, w.b, w.toB, w.toA, payload);
    case SendB(payload) => ReceiverReplies(w.a, w.b, w.toB, w.toA, payload);
    case AckA => SenderSaves(w.a, w.b, w.toB, w.toA, 0);
    case AckB => ReceiverReplies(w.a, w.b, w.toB, w.toA, []);
    case ReceiveA(m) => SenderReceives(w.a, w.b, w.toB, w.toA, m);
    case ReceiveB(m) => ReceiverReceives(w.a, w.b, w.toB, w.toA, m);
    case WriteA(token) => SenderSaves(w.a, w.b, w.toB, w.toA, token);
    case WriteB(token) => ReceiverWrites(w.a, w.b, w.toB, w.toA, token);
    case PersistA => SenderSaves(w.a, w.b, w.toB, w.toA, 0);
    case PersistB => ReceiverPersists(w.a, w.b, w.toB, w.toA);
    case SavedA(token) => SenderSaves(w.a, w.b, w.toB, w.toA, token);
    case SavedB(token) => ReceiverSaved(w.a, w.b, w.toB, w.toA, token);
    case OtherA => SenderSaves(w.a, w.b, w.toB, w.toA, 0);
    case OtherB => ReceiverCrashes(w.a, w.b, w.toB, w.toA);
    case CrashB => ReceiverCrashes(w.a, w.b, w.toB, w.toA);
  }

  lemma BToAStep(w: World, x: Action)
    requires Enabled(w, x) && BToA(w) && x != CrashB
    ensures BToA(Step(w, x))
  {
    hide DirectionOk;
    match x
    case SendB(payload) => SenderSends(w.b, w.a, w.toA, w.toB, payload);
    case SendA(payload) => ReceiverReplies(w.b, w.a, w.toA, w.toB, payload);
    case AckB => SenderSaves(w.b, w.a, w.toA, w.toB, 0);
    case AckA => ReceiverReplies(w.b, w.a, w.toA, w.toB, []);
    case ReceiveB(m) => SenderReceives(w.b, w.a, w.toA, w.toB, m);
    case ReceiveA(m) => ReceiverReceives(w.b, w.a, w.toA, w.toB, m);
    case WriteB(token) => SenderSaves(w.b, w.a, w.toA, w.toB, token);
    case WriteA(token) => ReceiverWrites(w.b, w.a, w.toA, w.toB, token);
    case PersistB => SenderSaves(w.b, w.a, w.toA, w.toB, 0);
    case PersistA => ReceiverPersists(w.b, w.a, w.toA, w.toB);
    case SavedB(token) => SenderSaves(w.b, w.a, w.toA, w.toB, token);
    case SavedA(token) => ReceiverSaved(w.b, w.a, w.toA, w.toB, token);
    case OtherB => SenderSaves(w.b, w.a, w.toA, w.toB, 0);
    case OtherA => ReceiverCrashes(w.b, w.a, w.toA, w.toB);
  }

  lemma {:induction false} RunKeeps(w: World, run: seq<Action>)
    requires Possible(w, run)
    ensures AToB(w) ==> AToB(After(w, run))
    ensures BToA(w) && CrashB !in run ==> BToA(After(w, run))
    decreases |run|
  {
    hide AToB, BToA;
    if run != [] {
      StepKeeps(w, run[0]);
      RunKeeps(Step(w, run[0]), run[1..]);
      assert CrashB !in run ==> CrashB !in run[1..];
    }
  }

  /** Nothing is lost, repeated or reordered towards `r`, and what `s` has let go of `r` has on disk. */
  ghost predicate Reliable(s: Party, r: Party) {
    && r.delivered <= s.sent
    && r.end.lastMsgSaved <= r.disk.end.lastMsgRcd
    && r.disk.delivered <= r.delivered
    && forall id {:trigger Holds(s.end.queue, id, s.sent)} :: 1 <= id <= |s.sent| ==>
         id <= |r.disk.delivered| || Holds(s.end.queue, id, s.sent)
  }

  /** The message with this ID is in the queue, with the payload sent under it. */
  ghost predicate Holds(q: seq<Msg>, id: nat, sent: seq<Payload>)
    requires 1 <= id <= |sent|
  {
    exists m :: m in q && m.id == id && m.payload == sent[id - 1]
  }

  lemma DirectionIsReliable(s: Party, r: Party, wire: set<Msg>, back: set<Msg>)
    requires DirectionOk(s, r, wire, back)
    ensures Reliable(s, r)
  {
    var k :| 0 <= k <= r.disk.end.lastMsgRcd && HoldsFrom(s.end.queue, s.sent, k);
    forall id | |r.disk.delivered| < id <= |s.sent|
      ensures Holds(s.end.queue, id, s.sent)
    {
      assert s.end.queue[id - k - 1] in s.end.queue;
    }
  }

  /** Over every run from a fresh start, whatever is lost, repeated or reordered and however often B
      crashes, the direction to B is reliable; over runs without a crash both are. */
  lemma AlwaysReliable(run: seq<Action>)
    requires Possible(Start, run)
    ensures var w := After(Start, run); Reliable(w.a, w.b) && (CrashB !in run ==> Reliable(w.b, w.a))
  {
    assert HoldsFrom([], [], 0) && QueueOk(FreshParty, FreshParty);
    assert AToB(Start) && BToA(Start);
    RunKeeps(Start, run);
    var w := After(Start, run);
    DirectionIsReliable(w.a, w.b, w.toB, w.toA);
    if CrashB !in run {
      DirectionIsReliable(w.b, w.a, w.toA, w.toB);
    }
  }

  // Recovery.

  function ResendRun(q: seq<Msg>): (run: seq<Action>)
    ensures |run| == |q|
  {
    seq(|q|, i requires 0 <= i < |q| => ReceiveB(q[i]))
  }

  /** If what A still holds reaches B once, in order, B has received everything A sent. */
  lemma {:induction false} ResendCatchesUp(w: World, q: seq<Msg>, k: nat)
    requires AToB(w) && HoldsFrom(q, w.a.sent, k) && k <= |w.b.delivered|
    requires forall m :: m in q ==> m in w.toB
    ensures Possible(w, ResendRun(q))
    ensures var v := After(w, ResendRun(q));
            && AToB(v) && v.a == w.a && v.b.delivered == w.a.sent
            && v.b.rcdAt == w.b.rcdAt && v.b.underway == w.b.underway
    decreases |q|
  {
    var run := ResendRun(q);
    if q == [] {
      assert w.b.delivered == w.a.sent;
    } else {
      assert q[0] in q && run[0] == ReceiveB(q[0]);
      assert run[1..] == ResendRun(q[1..]);
      StepKeeps(w, run[0]);
      var w1 := Step(w, run[0]);
      assert HoldsFrom(q[1..], w.a.sent, k + 1) by {
        assert forall i :: 0 <= i < |q| - 1 ==> q[1..][i] == q[i + 1];
      }
      assert forall m :: m in q[1..] ==> m in q;
      ResendCatchesUp(w1, q[1..], k + 1);
    }
  }

  lemma {:induction false} AfterConcat(w: World, run: seq<Action>, more: seq<Action>)
    requires Possible(w, run) && Possible(After(w, run), more)
    ensures Possible(w, run + more) && After(w, run + more) == After(After(w, run), more)
    decreases |run|
  {
    if run == [] {
      assert run + more == more;
    } else {
      assert (run + more)[0] == run[0] && (run + more)[1..] == run[1..] + more;
      AfterConcat(Step(w, run[0]), run[1..], more);
    }
  }

  lemma FirstStep(w: World, x: Action, rest: seq<Action>)
    requires Enabled(w, x) && Possible(Step(w, x), rest)
    ensures Possible(w, [x] + rest) && After(w, [x] + rest) == After(Step(w, x), rest)
  {
    assert ([x] + rest)[1..] == rest;
  }

  /** Save, have it reach the disk, report it: then an acknowledgement covers everything received. */
  lemma SavedIsAcked(w: World, token: nat)
    requires AToB(w) && w.b.underway == [] && token != 0 && token !in w.b.rcdAt
    ensures Enabled(w, WriteB(token))
    ensures var w1 := Step(w, WriteB(token));
            && Enabled(w1, PersistB)
            && var w2 := Step(w1, PersistB);
            && Enabled(w2, SavedB(token))
            && var w3 := Step(w2, SavedB(token));
            && w3.a == w.a && w3.b.delivered == w3.b.disk.delivered == w.b.delivered
            && AckMsg(w3.b.end) == Msg(0, |w.b.delivered|, [])
            && forall payload :: NextMsg(w3.b.end, payload).ack == |w.b.delivered|
  {
  }

  /** After a crash, without another save, the first message of B's, bare or not, acknowledges all that is on its
      disk, and once A has received it A keeps nothing for resending that B has. */
  lemma CrashAcks(w: World) returns (run: seq<Action>)
    requires AToB(w)
    ensures run == [CrashB, AckB, ReceiveA(Msg(0, |w.b.disk.delivered|, []))] && Possible(w, run)
    ensures forall payload :: NextMsg(Step(w, CrashB).b.end, payload).ack == |w.b.disk.delivered|
    ensures forall m :: m in After(w, run).a.end.queue ==> |w.b.disk.delivered| < m.id
    ensures forall m :: m in w.a.end.queue && |w.b.disk.delivered| < m.id ==> m in After(w, run).a.end.queue
  {
    hide HoldsFrom, Possible, After, Unacked;
    var w1 := Step(w, CrashB);
    var w2 := Step(w1, AckB);
    var ack := Msg(0, |w.b.disk.delivered|, []);
    assert AckMsg(w1.b.end) == ack;
    var w3 := Step(w2, ReceiveA(ack));
    assert w3.a.end.queue == Unacked(w.a.end.queue, |w.b.disk.delivered|);
    assert [ReceiveA(ack)] + [] == [ReceiveA(ack)];
    assert [AckB] + [ReceiveA(ack)] == [AckB, ReceiveA(ack)];
    NoSteps(w3);
    FirstStep(w2, ReceiveA(ack), []);
    FirstStep(w1, AckB, [ReceiveA(ack)]);
    FirstStep(w, CrashB, [AckB, ReceiveA(ack)]);
    run := [CrashB] + [AckB, ReceiveA(ack)];
  }

  /** An acknowledgement of everything empties the sender's queue. */
  lemma AckEmpties(w: World)
    requires AToB(w)
    ensures Unacked(w.a.end.queue, |w.a.sent|) == []
  {
    var k :| 0 <= k <= w.b.disk.end.lastMsgRcd && HoldsFrom(w.a.end.queue, w.a.sent, k);
    UnackedHolds(w.a.end.queue, w.a.sent, k, |w.a.sent|);
  }

  /** Once B has received everything, one completed save and one acknowledgement empty A's queue. */
  lemma SaveAndAck(w: World, token: nat) returns (run: seq<Action>)
    requires AToB(w) && w.b.delivered == w.a.sent && w.b.underway == []
    requires token != 0 && token !in w.b.rcdAt
    ensures run == [WriteB(token), PersistB, SavedB(token), AckB, ReceiveA(Msg(0, |w.a.sent|, []))]
    ensures Possible(w, run)
    ensures var v := After(w, run);
            v.a.end.queue == [] && v.b.delivered == v.a.sent == w.a.sent && v.b.disk.delivered == v.a.sent
  {
    hide AToB, HoldsFrom, PartyWrite, PartyPersist, PartySaved, Possible, After, Unacked;
    SavedIsAcked(w, token);
    AckEmpties(w);
    var w1 := Step(w, WriteB(token));
    var w2 := Step(w1, PersistB);
    var w3 := Step(w2, SavedB(token));
    var w4 := Step(w3, AckB);
    var ack := ReceiveA(Msg(0, |w.a.sent|, []));
    assert [ack] + [] == [ack];
    assert [AckB] + [ack] == [AckB, ack];
    assert [SavedB(token)] + [AckB, ack] == [SavedB(token), AckB, ack];
    assert [PersistB] + [SavedB(token), AckB, ack] == [PersistB, SavedB(token), AckB, ack];
    NoSteps(Step(w4, ack));
    FirstStep(w4, ack, []);
    FirstStep(w3, AckB, [ack]);
    FirstStep(w2, SavedB(token), [AckB, ack]);
    FirstStep(w1, PersistB, [SavedB(token), AckB, ack]);
    FirstStep(w, WriteB(token), [PersistB, SavedB(token), AckB, ack]);
    run := [WriteB(token)] + ([PersistB] + ([SavedB(token)] + ([AckB] + ([ack] + []))));
  }

  lemma NoSteps(w: World)
    ensures Possible(w, []) && After(w, []) == w
  {
  }

  /** From any state B can be brought level without a new message from A's game: crash and restart, let
      A's queue through once, save and acknowledge. Then all A sent is on B's disk and A holds nothing. */
  lemma AlwaysRecovers(w: World, token: nat) returns (run: seq<Action>)
    requires AToB(w) && token != 0 && token !in w.b.rcdAt
    ensures Possible(w, run)
    ensures var v := After(w, run);
            && v.a.sent == w.a.sent && v.b.delivered == w.a.sent
            && v.b.disk.delivered == w.a.sent && v.a.end.queue == []
  {
    StepKeeps(w, CrashB);
    var w1 := Step(w, CrashB);
    assert [CrashB][1..] == [];
    assert Possible(w, [CrashB]) && After(w, [CrashB]) == w1;
    var k :| 0 <= k <= w.b.disk.end.lastMsgRcd && HoldsFrom(w.a.end.queue, w.a.sent, k);
    ResendCatchesUp(w1, w.a.end.queue, k);
    var w2 := After(w1, ResendRun(w.a.end.queue));
    var rest := SaveAndAck(w2, token);
    AfterConcat(w1, ResendRun(w.a.end.queue), rest);
    AfterConcat(w, [CrashB], ResendRun(w.a.end.queue) + rest);
    run := [CrashB] + (ResendRun(w.a.end.queue) + rest);
  }
}
