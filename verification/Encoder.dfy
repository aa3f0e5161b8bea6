/** The encoder session's life and the order in which viewers get their fragments. */
module Encoder {
  import opened Bytes

  /** Decoder configuration; the init segment is built from it. */
  type Avc = seq<byte>

  datatype Client = Client(id: nat, joined: bool)

  /** What is enqueued to a viewer. `ordinal` counts a session's fragments without wrapping. */
  datatype Msg =
    | Codec(avc: Avc)
    | InitSegment(avc: Avc)
    | Fragment(session: nat, ordinal: nat, number: u32, sync: bool)

  /** An encoder callback: not running, between its two locked sections, or sending. */
  datatype Callback =
    | Idle
    | Numbered(number: u32, sync: bool, avc: Avc, init: Option<Avc>)
    | Sending(number: u32, sync: bool, avc: Avc, init: Option<Avc>, targets: seq<(nat, bool)>)

  /** The locked fields; the threads inside `ensureSession` and the asynchronous teardowns; the
      running callback; and the history: sessions created, fragments made in the latest, and what
      was enqueued to each viewer. */
  datatype Enc = Enc(
    session: Option<nat>, tearingDown: bool, seqNo: u32, avcC: Option<Avc>, initSegment: Option<Avc>,
    clients: seq<Client>,
    creating: nat, draining: seq<nat>, callback: Callback,
    created: nat, made: nat, nextClient: nat, logs: map<nat, seq<Msg>>)

  datatype Step =
    | EnsureBegin | EnsureFail | EnsureOk
    | TeardownBegin | TeardownEnd(i: nat)
    | Number(sync: bool, avc: Avc) | PickTargets | SendNext | CallbackDone
    | Join | Leave(i: nat)

  function Start(): Enc {
    Enc(None, false, 0, None, None, [], 0, [], Idle, 0, 0, 0, map[])
  }

  /** Callbacks run one at a time and only while a session lives, and a teardown ends after them. */
  predicate Enabled(e: Enc, t: Step) {
    match t
    case EnsureFail => e.creating > 0
    case EnsureOk => e.creating > 0
    case TeardownEnd(i) => i < |e.draining| && e.callback.Idle?
    case Number(_, _) => e.callback.Idle? && (e.session.Some? || e.draining != [])
    case PickTargets => e.callback.Numbered?
    case SendNext => e.callback.Sending? && e.callback.targets != [] && e.callback.targets[0].0 in e.logs
    case CallbackDone => e.callback.Sending? && e.callback.targets == []
    case Leave(i) => i < |e.clients|
    case _ => true
  }

  /** Viewers a fragment goes to, with whether each is new; a new viewer waits for a sync frame. */
  function Targets(clients: seq<Client>, sync: bool): seq<(nat, bool)> {
    if clients == [] then []
    else
      var init, last := clients[..|clients| - 1], clients[|clients| - 1];
      Targets(init, sync) + (if last.joined || sync then [(last.id, !last.joined)] else [])
  }

  function Joined(clients: seq<Client>, sync: bool): (r: seq<Client>)
    ensures |r| == |clients|
    ensures forall i :: 0 <= i < |r| ==> r[i] == Client(clients[i].id, clients[i].joined || sync)
  {
    seq(|clients|, i requires 0 <= i < |clients| => Client(clients[i].id, clients[i].joined || sync))
  }

  function Greeting(cb: Callback): seq<Msg>
    requires cb.Sending?
  {
    [Codec(cb.avc)] + (if cb.init.Some? then [InitSegment(cb.init.value)] else [])
  }

  function Sent(e: Enc, fresh': bool): seq<Msg>
    requires e.callback.Sending?
  {
    (if fresh' then Greeting(e.callback) else [])
    + [Fragment(e.created, e.made, e.callback.number, e.callback.sync)]
  }

  function Next(e: Enc, t: Step): Enc
    requires Enabled(e, t)
  {
    match t
    case EnsureBegin =>
      if e.session.Some? || e.tearingDown then e else e.(tearingDown := true, creating := e.creating + 1)
    case EnsureFail => e.(tearingDown := false, creating := e.creating - 1)
    case EnsureOk =>
      e.(session := Some(e.created + 1), created := e.created + 1, made := 0, seqNo := 0, avcC := None,
         initSegment := None, tearingDown := false, creating := e.creating - 1)
    case TeardownBegin =>
      if e.tearingDown || e.session.None? then e
      else e.(session := None, tearingDown := true, draining := e.draining + [e.session.value])
    case TeardownEnd(i) => e.(tearingDown := false, draining := e.draining[..i] + e.draining[i + 1..])
    case Number(sync, avc) =>
      var init := if e.avcC == Some(avc) then e.initSegment else Some(avc);
      e.(avcC := Some(avc), initSegment := init, seqNo := Wrap32(e.seqNo + 1), made := e.made + 1,
         callback := Numbered(Wrap32(e.seqNo + 1), sync, avc, init))
    case PickTargets =>
      var cb := e.callback;
      e.(clients := Joined(e.clients, cb.sync),
         callback := Sending(cb.number, cb.sync, cb.avc, cb.init, Targets(e.clients, cb.sync)))
    case SendNext =>
      var (id, fresh') := e.callback.targets[0];
      e.(logs := e.logs[id := e.logs[id] + Sent(e, fresh')],
          callback := e.callback.(targets := e.callback.targets[1..]))
    case CallbackDone => e.(callback := Idle)
    case Join =>
      e.(clients := e.clients + [Client(e.nextClient, false)], nextClient := e.nextClient + 1,
          logs := e.logs[e.nextClient := []])
    case Leave(i) => e.(clients := e.clients[..i] + e.clients[i + 1..])
  }

  ghost predicate Run(es: seq<Enc>, ts: seq<Step>) {
    && |es| == |ts| + 1 && es[0] == Start()
    && forall i :: 0 <= i < |ts| ==> Enabled(es[i], ts[i]) && es[i + 1] == Next(es[i], ts[i])
  }

  // ---- exclusivity -----------------------------------------------------------------

  function Live(e: Enc): nat { e.creating + |e.draining| + (if e.session.Some? then 1 else 0) }

  /** At most one session is being created, running or draining; the flag says which sort; a
      callback belongs to the latest session; and its numbers count that session's fragments. */
  ghost predicate Exclusive(e: Enc) {
    && Live(e) <= 1
    && (e.tearingDown <==> e.creating + |e.draining| == 1)
    && (e.session.Some? ==> e.session.value == e.created)
    && (forall i :: 0 <= i < |e.draining| ==> e.draining[i] == e.created)
    && (!e.callback.Idle? ==> e.creating == 0 && Live(e) == 1 && e.made > 0 && e.callback.number == Wrap32(e.made))
    && e.seqNo == Wrap32(e.made)
    && (e.avcC.Some? ==> e.initSegment == e.avcC)
    && (!e.callback.Idle? ==> e.callback.init == Some(e.callback.avc))
    && (e.created == 0 ==> e.made == 0 && e.session.None? && e.draining == [])
  }

  lemma ExclusiveStep(e: Enc, t: Step)
    requires Exclusive(e) && Enabled(e, t)
    ensures Exclusive(Next(e, t))
  {
    hide Wrap32, Targets;
    ZeroWraps(e.made);
  }

  lemma ZeroWraps(n: nat)
    ensures Wrap32(0) == 0 && Wrap32(Wrap32(n) + 1) == Wrap32(n + 1)
  {
    Wrap32Add(n, 1);
  }

  lemma {:induction false} ExclusiveAlways(es: seq<Enc>, ts: seq<Step>, i: nat)
    requires Run(es, ts) && i < |es|
    ensures Exclusive(es[i])
  {
    if i == 0 {
      ZeroWraps(0);
    } else {
      ExclusiveAlways(es, ts, i - 1);
      ExclusiveStep(es[i - 1], ts[i - 1]);
    }
  }

  /** Encoder exclusivity, in every interleaving of pushes, removals and asynchronous teardowns. */
  lemma EncoderExclusivity(es: seq<Enc>, ts: seq<Step>, i: nat)
    requires Run(es, ts) && i < |es|
    ensures Live(es[i]) <= 1
    ensures es[i].session.Some? ==> es[i].creating == 0 && es[i].draining == []
    ensures !es[i].callback.Idle? ==>
            es[i].callback.number == Wrap32(es[i].made) && es[i].callback.init == Some(es[i].callback.avc)
  {
    ExclusiveAlways(es, ts, i);
  }

  // ---- viewers ------------------------------------------------------------------------

  /** The next fragment number in the same session, or the first of a later session. */
  predicate Follows(a: Msg, b: Msg) {
    a.Fragment? && b.Fragment?
    && ((b.session == a.session && b.ordinal == a.ordinal + 1) || (b.session > a.session && b.ordinal == 1))
  }

  /** Nothing yet, or codec text, the init segment of that codec, a sync fragment, then fragments with
      consecutive numbers within a session, starting again at one in a later session. */
  ghost predicate Shape(log: seq<Msg>) {
    log == [] ||
    (&& |log| >= 3
     && log[0].Codec? && log[1] == InitSegment(log[0].avc)
     && log[2].Fragment? && log[2].sync
     && (forall i :: 3 <= i < |log| ==> Follows(log[i - 1], log[i]))
     && (forall i :: 2 <= i < |log| ==> log[i].Fragment? && log[i].number == Wrap32(log[i].ordinal)))
  }

  /** The viewer was enqueued everything up to fragment `n` of session `s`. */
  ghost predicate UpTo(log: seq<Msg>, s: nat, n: nat) {
    && Shape(log) && log != []
    && var last := log[|log| - 1];
    (last.session == s && last.ordinal == n && n > 0) || (last.session < s && n == 0)
  }

  /** A target of the running callback still waits for the current fragment. */
  ghost predicate Awaits(e: Enc, target: (nat, bool))
    requires e.made > 0 && !e.callback.Idle?
  {
    && target.0 in e.logs
    && if target.1 then e.callback.sync && e.logs[target.0] == [] else UpTo(e.logs[target.0], e.created, e.made - 1)
  }

  predicate IsTarget(targets: seq<(nat, bool)>, id: nat) {
    exists i :: 0 <= i < |targets| && targets[i].0 == id
  }

  /** What is owed to a registered viewer. */
  ghost predicate Served(e: Enc, c: Client)
    requires c.id in e.logs && (e.callback.Numbered? ==> e.made > 0)
  {
    if !c.joined then e.logs[c.id] == [] && !(e.callback.Sending? && IsTarget(e.callback.targets, c.id))
    else if e.callback.Numbered? then UpTo(e.logs[c.id], e.created, e.made - 1)
    else if e.callback.Sending? && IsTarget(e.callback.targets, c.id) then true
    else UpTo(e.logs[c.id], e.created, e.made)
  }

  ghost predicate Faithful(e: Enc) {
    && Exclusive(e)
    && (forall id :: id in e.logs ==> id < e.nextClient && Shape(e.logs[id]))
    && (forall i :: 0 <= i < |e.clients| ==> e.clients[i].id in e.logs && Served(e, e.clients[i]))
    && (forall i, j :: 0 <= i < j < |e.clients| ==> e.clients[i].id != e.clients[j].id)
    && (e.callback.Sending? ==>
          (forall i :: 0 <= i < |e.callback.targets| ==> Awaits(e, e.callback.targets[i]))
          && (forall i, j :: 0 <= i < j < |e.callback.targets| ==> e.callback.targets[i].0 != e.callback.targets[j].0))
  }

  /** Sending the awaited fragment brings the viewer up to date. */
  lemma SentBringsUpToDate(e: Enc, target: (nat, bool))
    requires Exclusive(e) && e.callback.Sending? && Awaits(e, target)
    ensures UpTo(e.logs[target.0] + Sent(e, target.1), e.created, e.made)
  {
    hide Wrap32;
    var log := e.logs[target.0];
    var log' := log + Sent(e, target.1);
    if target.1 {
      assert log' == [Codec(e.callback.avc), InitSegment(e.callback.avc),
                      Fragment(e.created, e.made, e.callback.number, e.callback.sync)];
    } else {
      var f := Fragment(e.created, e.made, e.callback.number, e.callback.sync);
      assert log' == log + [f];
      assert Follows(log[|log| - 1], f);
      forall i | 3 <= i < |log'| ensures Follows(log'[i - 1], log'[i]) {
        assert i < |log| ==> Follows(log[i - 1], log[i]);
      }
    }
  }

  predicate Picks(c: Client, sync: bool, target: (nat, bool)) {
    (c.joined || sync) && target == (c.id, !c.joined)
  }

  /** Where a target comes from. */
  lemma {:induction false} TargetSource(clients: seq<Client>, sync: bool, k: nat) returns (i: nat)
    requires k < |Targets(clients, sync)|
    ensures i < |clients| && Picks(clients[i], sync, Targets(clients, sync)[k])
  {
    var init := clients[..|clients| - 1];
    if k < |Targets(init, sync)| {
      i := TargetSource(init, sync, k);
    } else {
      i := |clients| - 1;
    }
  }

  lemma {:induction false} TargetPicked(clients: seq<Client>, sync: bool, i: nat)
    requires i < |clients| && (clients[i].joined || sync)
    ensures IsTarget(Targets(clients, sync), clients[i].id)
    decreases |clients|
  {
    var init := clients[..|clients| - 1];
    var before, ts := Targets(init, sync), Targets(clients, sync);
    if i < |init| {
      TargetPicked(init, sync, i);
      var k :| 0 <= k < |before| && before[k].0 == clients[i].id;
      assert ts[k].0 == clients[i].id;
    } else {
      assert ts[|ts| - 1].0 == clients[i].id;
    }
  }

  /** Targets come in the order of the viewers. */
  lemma {:induction false} TargetsInOrder(clients: seq<Client>, sync: bool, j: nat, k: nat) returns (a: nat, b: nat)
    requires j < k < |Targets(clients, sync)|
    ensures a < b < |clients|
    ensures Picks(clients[a], sync, Targets(clients, sync)[j]) && Picks(clients[b], sync, Targets(clients, sync)[k])
  {
    var init := clients[..|clients| - 1];
    if k < |Targets(init, sync)| {
      a, b := TargetsInOrder(init, sync, j, k);
    } else {
      a := TargetSource(init, sync, j);
      b := |clients| - 1;
    }
  }

  lemma TargetsDistinct(clients: seq<Client>, sync: bool, j: nat, k: nat)
    requires forall a, b :: 0 <= a < b < |clients| ==> clients[a].id != clients[b].id
    requires j < k < |Targets(clients, sync)|
    ensures Targets(clients, sync)[j].0 != Targets(clients, sync)[k].0
  {
    hide Targets;
    var a, b := TargetsInOrder(clients, sync, j, k);
  }

  lemma PickStep(e: Enc)
    requires Faithful(e) && e.callback.Numbered?
    ensures Faithful(Next(e, PickTargets))
  {
    ExclusiveStep(e, PickTargets);
    ExclusiveMade(e);
    hide Wrap32, Shape, Exclusive, Targets, UpTo;
    var e', sync := Next(e, PickTargets), e.callback.sync;
    var ts := Targets(e.clients, sync);
    forall k | 0 <= k < |ts| ensures Awaits(e', ts[k]) {
      var i := TargetSource(e.clients, sync, k);
      assert Served(e, e.clients[i]);
    }
    forall j, k | 0 <= j < k < |ts| ensures ts[j].0 != ts[k].0 {
      TargetsDistinct(e.clients, sync, j, k);
    }
    forall i | 0 <= i < |e'.clients| ensures Served(e', e'.clients[i]) {
      assert Served(e, e.clients[i]);
      if e'.clients[i].joined {
        TargetPicked(e.clients, sync, i);
      } else {
        forall k | 0 <= k < |ts| ensures ts[k].0 != e.clients[i].id {
          var j := TargetSource(e.clients, sync, k);
          assert i != j;
        }
      }
    }
  }

  lemma ExclusiveMade(e: Enc)
    requires Exclusive(e)
    ensures !e.callback.Idle? ==> e.made > 0
  {
  }

  lemma SendStep(e: Enc)
    requires Faithful(e) && Enabled(e, SendNext)
    ensures Faithful(Next(e, SendNext))
  {
    ExclusiveStep(e, SendNext);
    var e', ts := Next(e, SendNext), e.callback.targets;
    SentBringsUpToDate(e, ts[0]);
    ExclusiveMade(e);
    hide Wrap32, Shape, Exclusive, Sent, UpTo;
    UpToShape(e'.logs[ts[0].0], e.created, e.made);
    forall k | 0 <= k < |ts| - 1 ensures Awaits(e', ts[1..][k]) {
      assert ts[k + 1].0 != ts[0].0 && Awaits(e, ts[k + 1]);
    }
    forall i | 0 <= i < |e.clients| ensures Served(e', e.clients[i]) {
      var c := e.clients[i];
      assert Served(e, c);
      if c.id == ts[0].0 {
        assert IsTarget(ts, c.id);
      } else {
        TargetTail(ts, c.id);
      }
    }
  }

  lemma TargetTail(ts: seq<(nat, bool)>, id: nat)
    requires ts != [] && ts[0].0 != id
    ensures IsTarget(ts, id) <==> IsTarget(ts[1..], id)
  {
    if IsTarget(ts, id) {
      var k :| 0 <= k < |ts| && ts[k].0 == id;
      assert ts[1..][k - 1].0 == id;
    }
    if IsTarget(ts[1..], id) {
      var k :| 0 <= k < |ts| - 1 && ts[1..][k].0 == id;
      assert ts[k + 1].0 == id;
    }
  }

  lemma UpToShape(log: seq<Msg>, s: nat, n: nat)
    requires UpTo(log, s, n)
    ensures Shape(log)
  {
  }

  lemma JoinStep(e: Enc)
    requires Faithful(e)
    ensures Faithful(Next(e, Join))
  {
    ExclusiveStep(e, Join);
    ExclusiveMade(e);
    NoLogYet();
    hide Exclusive, Shape, UpTo;
    var e' := Next(e, Join);
    if e.callback.Sending? {
      forall k | 0 <= k < |e.callback.targets|
        ensures e.callback.targets[k].0 != e.nextClient && Awaits(e', e.callback.targets[k])
      {
        assert Awaits(e, e.callback.targets[k]);
      }
    }
    forall i | 0 <= i < |e'.clients| ensures e'.clients[i].id in e'.logs && Served(e', e'.clients[i]) {
      if i < |e.clients| {
        assert Served(e, e.clients[i]);
      }
    }
  }

  lemma LeaveStep(e: Enc, n: nat)
    requires Faithful(e) && n < |e.clients|
    ensures Faithful(Next(e, Leave(n)))
  {
    ExclusiveStep(e, Leave(n));
    ExclusiveMade(e);
    hide Exclusive, Shape, UpTo;
    var e' := Next(e, Leave(n));
    forall i | 0 <= i < |e'.clients|
      ensures e'.clients[i] == e.clients[if i < n then i else i + 1] && Served(e', e'.clients[i])
    {
      assert Served(e, e.clients[if i < n then i else i + 1]);
    }
    if e.callback.Sending? {
      forall k | 0 <= k < |e.callback.targets| ensures Awaits(e', e.callback.targets[k]) {
        assert Awaits(e, e.callback.targets[k]);
      }
    }
  }

  lemma NoLogYet()
    ensures Shape([])
  {
  }

  /** Sessions come and go, callbacks start and finish. */
  lemma SessionStep(e: Enc, t: Step)
    requires Faithful(e) && Enabled(e, t)
    requires !t.PickTargets? && !t.SendNext? && !t.Join? && !t.Leave?
    ensures Faithful(Next(e, t))
  {
    ExclusiveStep(e, t);
    hide Wrap32, Shape;
    var e' := Next(e, t);
    forall i | 0 <= i < |e'.clients| ensures Served(e', e'.clients[i]) {
      assert Served(e, e.clients[i]);
    }
    if e'.callback.Sending? {
      forall k | 0 <= k < |e.callback.targets| ensures Awaits(e', e.callback.targets[k]) {
        assert Awaits(e, e.callback.targets[k]);
      }
    }
  }

  lemma {:induction false} FaithfulAlways(es: seq<Enc>, ts: seq<Step>, i: nat)
    requires Run(es, ts) && i < |es|
    ensures Faithful(es[i])
  {
    if i == 0 {
      ZeroWraps(0);
    } else {
      FaithfulAlways(es, ts, i - 1);
      hide Next, Faithful;
      var e, t := es[i - 1], ts[i - 1];
      assert es[i] == Next(e, t) && Enabled(e, t);
      if t.PickTargets? {
        PickStep(e);
      } else if t.SendNext? {
        SendStep(e);
      } else if t.Join? {
        JoinStep(e);
      } else if t.Leave? {
        LeaveStep(e, t.i);
      } else {
        SessionStep(e, t);
      }
    }
  }

  /** Join order: in every interleaving what is enqueued to each viewer is codec text, the matching init
      segment, a sync fragment, then fragments with no number skipped or repeated; and when no callback
      is running, a registered viewer that has joined was enqueued the latest fragment of the session.
      What its queue keeps of that is the subject of `Delivery`. */
  lemma JoinOrder(es: seq<Enc>, ts: seq<Step>, i: nat)
    requires Run(es, ts) && i < |es|
    ensures forall id :: id in es[i].logs ==> Shape(es[i].logs[id])
    ensures es[i].callback.Idle? ==>
              forall k :: 0 <= k < |es[i].clients| && es[i].clients[k].joined ==>
                es[i].clients[k].id in es[i].logs && UpTo(es[i].logs[es[i].clients[k].id], es[i].created, es[i].made)
  {
    FaithfulAlways(es, ts, i);
    var e := es[i];
    if e.callback.Idle? {
      forall k | 0 <= k < |e.clients| && e.clients[k].joined
        ensures e.clients[k].id in e.logs && UpTo(e.logs[e.clients[k].id], e.created, e.made)
      {
        assert Served(e, e.clients[k]);
      }
    }
  }

  // ---- the registry -------------------------------------------------------------------

  /** The entries of the other viewers, in order. */
  function Others(clients: seq<Client>, id: nat): seq<Client> {
    if clients == [] then []
    else
      var last := clients[|clients| - 1];
      Others(clients[..|clients| - 1], id) + (if last.id != id then [last] else [])
  }

  lemma {:induction false} OthersAppend(a: seq<Client>, b: seq<Client>, id: nat)
    ensures Others(a + b, id) == Others(a, id) + Others(b, id)
  {
    if b == [] {
      assert a + b == a;
    } else {
      var init := b[..|b| - 1];
      OthersAppend(a, init, id);
      assert (a + b)[..|a + b| - 1] == a + init;
    }
  }

  /** Taking out a viewer's entry keeps the others' and their order. */
  lemma OthersStay(clients: seq<Client>, k: nat)
    requires k < |clients|
    ensures Others(clients[..k] + clients[k + 1..], clients[k].id) == Others(clients, clients[k].id)
  {
    hide Others;
    var id, front, back := clients[k].id, clients[..k], clients[k + 1..];
    OthersAppend(front, back, id);
    OthersAppend(front + [clients[k]], back, id);
    OthersAppend(front, [clients[k]], id);
    NoOther(clients[k]);
    assert Others(front, id) + [] == Others(front, id);
    assert clients == front + [clients[k]] + back;
  }

  lemma NoOther(c: Client)
    ensures Others([c], c.id) == []
  {
    assert [c][..0] == [];
  }

  predicate Registered(e: Enc, id: nat) {
    exists k :: 0 <= k < |e.clients| && e.clients[k].id == id
  }

  predicate HasJoined(e: Enc, id: nat) {
    exists k :: 0 <= k < |e.clients| && e.clients[k] == Client(id, true)
  }

  /** The step is the viewer's own leaving. */
  predicate LeavesAs(e: Enc, t: Step, id: nat) {
    t.Leave? && t.i < |e.clients| && e.clients[t.i].id == id
  }

  /** A sync fragment goes out. */
  predicate Syncs(e: Enc, t: Step) { t.PickTargets? && e.callback.Numbered? && e.callback.sync }

  lemma RegistryStep(e: Enc, t: Step, id: nat)
    requires Enabled(e, t) && Registered(e, id) && !LeavesAs(e, t, id)
    ensures Registered(Next(e, t), id)
    ensures HasJoined(e, id) || Syncs(e, t) ==> HasJoined(Next(e, t), id)
  {
    hide Targets;
    var k :| 0 <= k < |e.clients| && e.clients[k].id == id;
    EntryStays(e, t, k);
    if HasJoined(e, id) {
      var j :| 0 <= j < |e.clients| && e.clients[j] == Client(id, true);
      EntryStays(e, t, j);
    }
  }

  /** An entry stays until its own removal; only its flag may be set. */
  lemma EntryStays(e: Enc, t: Step, k: nat)
    requires Enabled(e, t) && k < |e.clients| && !LeavesAs(e, t, e.clients[k].id)
    ensures Registered(Next(e, t), e.clients[k].id)
    ensures e.clients[k].joined || Syncs(e, t) ==> HasJoined(Next(e, t), e.clients[k].id)
  {
    hide Targets;
    var e' := Next(e, t);
    var at := if t.Leave? && t.i < k then k - 1 else k;
    assert e'.clients[at].id == e.clients[k].id;
  }

  /** A viewer stays registered from its joining to its own leaving, whatever the other viewers do; once a
      sync fragment went out in between it has joined, and whenever no callback runs it was enqueued
      every fragment of the session up to the latest. */
  lemma {:induction false} ViewerStays(es: seq<Enc>, ts: seq<Step>, j: nat, n: nat)
    requires Run(es, ts) && j < n < |es| && ts[j].Join?
    requires forall k :: j < k < n ==> !LeavesAs(es[k], ts[k], es[j].nextClient)
    ensures Registered(es[n], es[j].nextClient)
    ensures (exists k :: j < k < n && Syncs(es[k], ts[k])) ==> HasJoined(es[n], es[j].nextClient)
    ensures HasJoined(es[n], es[j].nextClient) && es[n].callback.Idle? ==>
              var id := es[j].nextClient;
              id in es[n].logs && UpTo(es[n].logs[id], es[n].created, es[n].made)
  {
    var id := es[j].nextClient;
    assert es[n] == Next(es[n - 1], ts[n - 1]) && Enabled(es[n - 1], ts[n - 1]);
    if n == j + 1 {
      assert es[n].clients[|es[j].clients|].id == id;
    } else {
      hide Next, Enabled, Registered, HasJoined, LeavesAs, Syncs, UpTo;
      ViewerStays(es, ts, j, n - 1);
      RegistryStep(es[n - 1], ts[n - 1], id);
    }
    JoinOrder(es, ts, n);
    LatestEnqueued(es[n], id);
  }

  lemma LatestEnqueued(e: Enc, id: nat)
    requires e.callback.Idle? ==>
               forall k :: 0 <= k < |e.clients| && e.clients[k].joined ==>
                 e.clients[k].id in e.logs && UpTo(e.logs[e.clients[k].id], e.created, e.made)
    ensures HasJoined(e, id) && e.callback.Idle? ==> id in e.logs && UpTo(e.logs[id], e.created, e.made)
  {
    hide UpTo;
  }

  // ---- the object ---------------------------------------------------------------------

  predicate Removes(clients: seq<Client>, id: nat, k: nat) { k < |clients| && clients[k].id == id }

  /** The locked fields of the stream; `enc` follows along as the specification state. Each method is
      one locked section. */
  class H264Stream {
    var session: Option<nat>
    var isTearingDown: bool
    var seqNo: u32
    var avcC: Option<Avc>
    var initSegment: Option<Avc>
    var clients: seq<Client>
    ghost var enc: Enc

    /** The fields other than the viewers. */
    ghost predicate SessionValid()
      reads this
    {
      && session == enc.session && isTearingDown == enc.tearingDown && seqNo == enc.seqNo
      && avcC == enc.avcC && initSegment == enc.initSegment
    }

    ghost predicate Valid()
      reads this
    {
      SessionValid() && clients == enc.clients
    }

    constructor ()
      ensures Valid() && enc == Start()
    {
      session, isTearingDown, seqNo, avcC, initSegment, clients := None, false, 0, None, None, [];
      enc := Start();
    }

    /** First section of `ensureSession`: claim the flag unless a session lives or is on its way. */
    method EnsureClaim() returns (claimed: bool)
      requires Valid()
      modifies this
      ensures Valid() && enc == Next(old(enc), EnsureBegin)
      ensures claimed <==> old(session).None? && !old(isTearingDown)
      ensures claimed ==> isTearingDown && enc.creating == old(enc).creating + 1
    {
      claimed := !(session.Some? || isTearingDown);
      if claimed {
        isTearingDown := true;
      }
      enc := Next(enc, EnsureBegin);
    }

    /** Last section of `ensureSession`, after the encoder was created or not. */
    method EnsureFinish(created: Option<nat>)
      requires Valid() && enc.creating > 0
      requires created.Some? ==> created.value == enc.created + 1
      modifies this
      ensures Valid() && enc == Next(old(enc), if created.Some? then EnsureOk else EnsureFail)
      ensures !isTearingDown && enc.creating == old(enc).creating - 1
      ensures created.Some? ==> session == created && seqNo == 0 && avcC == None && initSegment == None
      ensures created.None? ==> session == old(session) && seqNo == old(seqNo)
    {
      if created.Some? {
        session, avcC, initSegment, seqNo := created, None, None, 0;
      }
      isTearingDown := false;
      enc := Next(enc, if created.Some? then EnsureOk else EnsureFail);
    }

    method TeardownClaim() returns (drained: Option<nat>)
      requires Valid()
      modifies this
      ensures Valid() && enc == Next(old(enc), TeardownBegin)
      ensures drained == if old(isTearingDown) then None else old(session)
      ensures drained.Some? ==> session == None && isTearingDown && enc.draining == old(enc).draining + [drained.value]
    {
      drained := None;
      if !isTearingDown && session.Some? {
        drained, session, isTearingDown := session, None, true;
      }
      enc := Next(enc, TeardownBegin);
    }

    method TeardownFinish(ghost i: nat)
      requires Valid() && Enabled(enc, TeardownEnd(i))
      modifies this
      ensures Valid() && enc == Next(old(enc), TeardownEnd(i)) && !isTearingDown && session == old(session)
    {
      isTearingDown := false;
      enc := Next(enc, TeardownEnd(i));
    }

    /** First section of the callback: number the fragment, refresh the init segment. */
    method NumberFragment(sync: bool, newAvcC: Avc) returns (number: u32, init: Option<Avc>)
      requires Valid() && Enabled(enc, Number(sync, newAvcC))
      modifies this
      ensures Valid() && enc == Next(old(enc), Number(sync, newAvcC))
      ensures number == enc.callback.number && init == enc.callback.init
      ensures number == seqNo == Wrap32(old(seqNo) + 1) && avcC == Some(newAvcC)
      ensures init == if old(avcC) == Some(newAvcC) then old(initSegment) else Some(newAvcC)
    {
      if avcC != Some(newAvcC) {
        avcC, initSegment := Some(newAvcC), Some(newAvcC);
      }
      seqNo := Wrap32(seqNo + 1);
      number, init := seqNo, initSegment;
      enc := Next(enc, Number(sync, newAvcC));
    }

    /** Second section: mark new viewers joined on a sync frame and collect who gets the fragment. */
    method CollectTargets(isSync: bool) returns (targets: seq<(nat, bool)>)
      requires Valid() && enc.callback.Numbered? && enc.callback.sync == isSync
      modifies this
      ensures Valid() && enc == Next(old(enc), PickTargets) && targets == enc.callback.targets
    {
      targets := [];
      ghost var was := clients;
      for i := 0 to |clients|
        invariant enc == old(enc) && SessionValid() && |clients| == |was|
        invariant targets == Targets(was[..i], isSync)
        invariant forall j :: 0 <= j < |was| ==>
          clients[j] == if j < i then Client(was[j].id, was[j].joined || isSync) else was[j]
      {
        assert was[..i + 1][..i] == was[..i];
        var needsInit := !clients[i].joined;
        if needsInit && !isSync {
          continue;
        }
        if needsInit {
          clients := clients[i := clients[i].(joined := true)];
        }
        targets := targets + [(clients[i].id, needsInit)];
      }
      assert was[..|was|] == was;
      assert clients == Joined(was, isSync);
      enc := Next(enc, PickTargets);
    }

    /** A viewer connects; `id` stands for the identity of its new connection object. */
    method AddViewer(id: nat) returns (n: nat)
      requires Valid() && id == enc.nextClient
      modifies this
      ensures Valid() && enc == Next(old(enc), Join) && n == |clients|
      ensures clients == old(clients) + [Client(id, false)]
    {
      clients := clients + [Client(id, false)];
      n := |clients|;
      enc := Next(enc, Join);
    }

    /** The locked section of `remove`: the session ends when the count returned is zero. */
    method RemoveViewer(id: nat) returns (n: nat)
      requires Valid()
      modifies this
      ensures Valid() && n == |clients|
      ensures enc == old(enc) || exists k :: Removes(old(clients), id, k) && enc == Next(old(enc), Leave(k))
      ensures enc == old(enc) ==> forall k :: 0 <= k < |clients| ==> clients[k].id != id
      ensures Others(clients, id) == Others(old(clients), id)
      ensures n == if exists k :: Removes(old(clients), id, k) then |old(clients)| - 1 else |old(clients)|
    {
      var k := 0;
      while k < |clients| && clients[k].id != id
        invariant 0 <= k <= |clients| && forall j :: 0 <= j < k ==> clients[j].id != id
      {
        k := k + 1;
      }
      if k < |clients| {
        OthersStay(clients, k);
        assert Removes(old(clients), id, k);
        clients := clients[..k] + clients[k + 1..];
        enc := Next(enc, Leave(k));
        assert |clients| < |old(clients)|;
      }
      n := |clients|;
    }
  }
}
