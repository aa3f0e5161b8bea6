/** Client bytes wait in the device's channel under a source port, are sent under that port and counted
    afterwards, while the port itself can be freed and given to the next client. Whose bytes a
    connection sends, and whose its record holds. */
module MuxChannel {
  import opened Bytes
  import opened MuxCodec
  import opened MuxDevice
  import opened MuxRuns

  /** A `Data` message of the channel, with the client whose proxy queued it. */
  datatype Message = Message(p: u16, data: seq<byte>, client: nat)

  /** `owner` is the client a port was given to. For each connection `wired` names the client of each byte
      sent on it, and `tags` that of each byte in its outbound record. `sending` is a message that was
      sent and is not counted yet. Clients are numbered in the order they connect. */
  datatype Line = Line(dev: Device, owner: map<u16, nat>, wired: map<u16, seq<nat>>, tags: map<u16, seq<nat>>,
                       queue: seq<Message>, sending: Option<Message>, nextClient: nat)

  datatype Act =
    | Dial(dport: u16, tag: u32, sport: u16)
    | SendSyn(p: u16)
    | Arrive(h: TcpHeader, payload: seq<byte>, peer: Option<u16>, key: Option<u16>, cap: nat)
    | Queue(p: u16, data: seq<byte>)
    | Deliver(ok: bool)
    | Count
    | Drain(p: u16)
    | Hangup(p: u16)
    | LoseDevice

  function Start(): Line { Line(NewDevice(), map[], map[], map[], [], None, 0) }

  /** Does the connection have a proxy? It starts once the connection was accepted. */
  predicate Proxied(l: Line, p: u16) {
    p in l.owner && p in l.dev.connections && l.dev.connections[p].state != SynSent
  }

  /** A proxy reads non-empty chunks from its client, and frees the port when it ends. The device's own
      task takes messages, counts them and handles arrivals, one after another. */
  ghost predicate Can(l: Line, a: Act) {
    match a
    case Dial(_, _, sport) => LeastFree(l.dev, sport)
    case SendSyn(p) => p in l.dev.connections
    case Arrive(h, _, _, key, _) => l.sending.None? && Routed(l.dev, h, key)
    case Queue(p, data) => Proxied(l, p) && data != []
    case Deliver(_) => l.sending.None? && l.queue != []
    case Count => l.sending.Some?
    case Drain(p) => p in l.dev.connections
    case Hangup(p) => Proxied(l, p)
    case LoseDevice => l.sending.None?
  }

  function Tagged(n: nat, client: nat): (s: seq<nat>)
    ensures |s| == n && forall i :: 0 <= i < n ==> s[i] == client
  {
    seq(n, _ => client)
  }

  function Append(tags: map<u16, seq<nat>>, m: Message): map<u16, seq<nat>> {
    if m.p in tags then tags[m.p := tags[m.p] + Tagged(|m.data|, m.client)] else tags
  }

  /** The oldest message is sent on whatever connection the port has, if that is connected. */
  function Delivered(l: Line, m: Message, ok: bool): Line {
    if DataFrame(l.dev, m.p, m.data).Some? && ok then l.(wired := Append(l.wired, m), sending := Some(m)) else l
  }

  /** What was sent is counted on whatever connection the port has by now. */
  function Counted(l: Line, m: Message): Line {
    l.(dev := if m.p in l.dev.connections then AfterData(l.dev, m.p, m.data) else l.dev.(txSeq := Bump16(l.dev.txSeq)),
       tags := Append(l.tags, m), sending := None)
  }

  ghost function Next(l: Line, a: Act): Line
    requires Can(l, a)
  {
    match a
    case Dial(dport, tag, sport) =>
      l.(dev := Open(l.dev, sport, dport, tag), owner := l.owner[sport := l.nextClient],
         wired := l.wired[sport := []], tags := l.tags[sport := []], nextClient := l.nextClient + 1)
    case SendSyn(p) => l.(dev := AfterSyn(l.dev))
    case Arrive(h, payload, peer, key, cap) => l.(dev := Receive(Peer(l.dev, peer), h, payload, key, cap).device)
    case Queue(p, data) => l.(queue := l.queue + [Message(p, data, l.owner[p])])
    case Deliver(ok) => Delivered(l, l.queue[0], ok).(queue := l.queue[1..])
    case Count => Counted(l, l.sending.value)
    case Drain(p) => l.(dev := Drained(l.dev, p))
    case Hangup(p) => l.(dev := Removed(l.dev, p), owner := l.owner - {p}, wired := l.wired - {p}, tags := l.tags - {p})
    case LoseDevice => l.(dev := AllDead(l.dev))
  }

  /** Consecutive steps from any state. */
  ghost predicate Trace(ls: seq<Line>, acts: seq<Act>) {
    && |ls| == |acts| + 1
    && forall i :: 0 <= i < |acts| ==> Can(ls[i], acts[i]) && ls[i + 1] == Next(ls[i], acts[i])
  }

  ghost predicate Run(ls: seq<Line>, acts: seq<Act>) { Trace(ls, acts) && ls[0] == Start() }

  // ---- what every step keeps ------------------------------------------------------------------

  /** Every connection has its client and one tag a byte of its record; clients are numbered below the
      next, messages are not empty. */
  ghost predicate Sound(l: Line) {
    && l.owner.Keys == l.tags.Keys == l.wired.Keys == l.dev.connections.Keys
    && (forall p: u16 :: p in l.owner ==> FIRST_PORT <= p < END_PORT && l.owner[p] < l.nextClient)
    && (forall p: u16 :: p in l.owner ==> |l.tags[p]| == |l.dev.connections[p].obBuf|)
    && (forall p: u16 :: p in l.owner ==> l.dev.connections[p].sourcePort == p)
    && (forall i :: 0 <= i < |l.queue| ==> l.queue[i].data != [] && l.queue[i].client < l.nextClient)
    && (l.sending.Some? ==> l.sending.value.data != [] && l.sending.value.client < l.nextClient)
  }

  /** The step sends the oldest message on the connection at `p`. */
  predicate Sends(l: Line, a: Act, p: u16) {
    && a.Deliver? && a.ok && l.queue != [] && l.queue[0].p == p
    && p in l.dev.connections && l.dev.connections[p].state == Connected
  }

  /** The step counts a message on the connection at `p`. */
  predicate Counts(l: Line, a: Act, p: u16) {
    a.Count? && l.sending.Some? && l.sending.value.p == p && p in l.dev.connections
  }

  /** What a step from `l` to `l'` does to the bookkeeping and the record of one connection. */
  ghost predicate Effect(l: Line, a: Act, l': Line, p: u16)
    requires p in l'.dev.connections
  {
    && p in l'.owner && p in l'.tags && p in l'.wired && l'.dev.connections[p].sourcePort == p
    && |l'.tags[p]| == |l'.dev.connections[p].obBuf| && FIRST_PORT <= p < END_PORT
    && if p !in l.owner then
         && a.Dial? && a.sport == p && l'.owner[p] == l.nextClient && l'.tags[p] == [] && l'.wired[p] == []
       else
         && p in l.tags && p in l.wired && l'.owner[p] == l.owner[p] && a != Hangup(p)
         && l'.wired[p] == l.wired[p] + (if Sends(l, a, p) then Tagged(|l.queue[0].data|, l.queue[0].client) else [])
         && l'.tags[p] == l.tags[p]
              + (if Counts(l, a, p) then Tagged(|l.sending.value.data|, l.sending.value.client) else [])
  }

  lemma LineEffect(l: Line, a: Act, p: u16)
    requires Sound(l) && Can(l, a) && p in Next(l, a).dev.connections
    ensures Effect(l, a, Next(l, a), p)
  {
    if a.Arrive? {
      ArriveEffect(l, a, p);
    } else if a.Deliver? || a.Count? {
      SendEffect(l, a, p);
    } else {
      OtherEffect(l, a, p);
    }
  }

  lemma ArriveEffect(l: Line, a: Act, p: u16)
    requires Sound(l) && Can(l, a) && a.Arrive? && p in Next(l, a).dev.connections
    ensures Effect(l, a, Next(l, a), p)
  {
    hide IsSynAck, ScaledWindow, Bump16, Add32, HasExact, Receive, Delivered, Counted;
    ReceiveEffect(Peer(l.dev, a.peer), a.h, a.payload, a.key, a.cap);
  }

  lemma SendEffect(l: Line, a: Act, p: u16)
    requires Sound(l) && Can(l, a) && (a.Deliver? || a.Count?) && p in Next(l, a).dev.connections
    ensures Effect(l, a, Next(l, a), p)
  {
    hide Bump16, Add32;
  }

  lemma OtherEffect(l: Line, a: Act, p: u16)
    requires Sound(l) && Can(l, a) && !a.Arrive? && !a.Deliver? && !a.Count? && p in Next(l, a).dev.connections
    ensures Effect(l, a, Next(l, a), p)
  {
    hide Bump16, Receive, Delivered, Counted;
  }

  lemma SoundStep(l: Line, a: Act)
    requires Sound(l) && Can(l, a)
    ensures Sound(Next(l, a)) && l.nextClient <= Next(l, a).nextClient
  {
    var l' := Next(l, a);
    SoundKeys(l, a);
    SoundMessages(l, a);
    forall p: u16 | p in l'.owner
      ensures FIRST_PORT <= p < END_PORT && l'.owner[p] < l'.nextClient && l'.dev.connections[p].sourcePort == p
      ensures |l'.tags[p]| == |l'.dev.connections[p].obBuf|
    {
      LineEffect(l, a, p);
    }
  }

  lemma SoundKeys(l: Line, a: Act)
    requires Sound(l) && Can(l, a)
    ensures var l' := Next(l, a);
      l'.owner.Keys == l'.tags.Keys == l'.wired.Keys == l'.dev.connections.Keys
  {
    if a.Arrive? {
      hide IsSynAck, ScaledWindow, Bump16, Add32, HasExact, Receive, Delivered, Counted;
      ReceiveEffect(Peer(l.dev, a.peer), a.h, a.payload, a.key, a.cap);
    } else {
      hide Receive, Bump16, Add32, Tagged;
    }
  }

  lemma SoundMessages(l: Line, a: Act)
    requires Sound(l) && Can(l, a)
    ensures var l' := Next(l, a);
      && l.nextClient <= l'.nextClient
      && (forall i :: 0 <= i < |l'.queue| ==> l'.queue[i].data != [] && l'.queue[i].client < l'.nextClient)
      && (l'.sending.Some? ==> l'.sending.value.data != [] && l'.sending.value.client < l'.nextClient)
  {
    hide Receive, Bump16, Add32, Append;
  }

  lemma {:induction false} SoundAlways(ls: seq<Line>, acts: seq<Act>, i: nat, n: nat)
    requires Run(ls, acts) && i <= n < |ls|
    ensures Sound(ls[n]) && ls[i].nextClient <= ls[n].nextClient
    decreases n
  {
    if n > 0 {
      SoundAlways(ls, acts, if i < n then i else n - 1, n - 1);
      hide Next, Can, Sound;
      SoundStep(ls[n - 1], acts[n - 1]);
    }
  }

  // ---- whose bytes ------------------------------------------------------------------------------

  /** All these bytes are the client's. */
  predicate AllFrom(tags: seq<nat>, client: nat) { forall i :: 0 <= i < |tags| ==> tags[i] == client }

  lemma AllFromAppend(tags: seq<nat>, n: nat, other: nat, client: nat)
    requires n > 0
    ensures AllFrom(tags + Tagged(n, other), client) <==> AllFrom(tags, client) && other == client
  {
    var all := tags + Tagged(n, other);
    assert all[|tags|] == other;
    assert forall i :: 0 <= i < |tags| ==> all[i] == tags[i];
  }

  /** If there is a connection at `p`, only its own client's bytes were sent on it. */
  ghost predicate OwnWire(l: Line, p: u16) { p in l.owner && p in l.wired ==> AllFrom(l.wired[p], l.owner[p]) }

  /** If there is a connection at `p`, its record holds only its own client's bytes. */
  ghost predicate OwnBytes(l: Line, p: u16) { p in l.owner && p in l.tags ==> AllFrom(l.tags[p], l.owner[p]) }

  /** A message of another client is sent on the connection of `client` at `p`. */
  predicate Leaks(l: Line, a: Act, p: u16, client: nat) {
    Sends(l, a, p) && p in l.owner && l.owner[p] == client && l.queue[0].client != client
  }

  /** A message of another client is counted on the connection of `client` at `p`. */
  predicate Miscounts(l: Line, a: Act, p: u16, client: nat) {
    Counts(l, a, p) && p in l.owner && l.owner[p] == client && l.sending.value.client != client
  }

  lemma OwnStep(l: Line, a: Act, p: u16)
    requires Sound(l) && Can(l, a) && p in l.owner && p in Next(l, a).dev.connections
    ensures OwnWire(Next(l, a), p) <==> OwnWire(l, p) && !Leaks(l, a, p, l.owner[p])
    ensures OwnBytes(Next(l, a), p) <==> OwnBytes(l, p) && !Miscounts(l, a, p, l.owner[p])
  {
    LineEffect(l, a, p);
    hide Next, Can;
    assert l.wired[p] + [] == l.wired[p] && l.tags[p] + [] == l.tags[p];
    if Sends(l, a, p) {
      AllFromAppend(l.wired[p], |l.queue[0].data|, l.queue[0].client, l.owner[p]);
    }
    if Counts(l, a, p) {
      AllFromAppend(l.tags[p], |l.sending.value.data|, l.sending.value.client, l.owner[p]);
    }
    hide AllFrom;
  }

  /** What was sent on a connection is its own client's if and only if no message of another client was
      sent on it; and what its record holds is, if and only if none was counted on it. */
  lemma {:induction false} OwnBytesExactly(ls: seq<Line>, acts: seq<Act>, n: nat, p: u16)
    requires Run(ls, acts) && n < |ls| && p in ls[n].owner
    ensures OwnWire(ls[n], p) <==> forall i :: 0 <= i < n ==> !Leaks(ls[i], acts[i], p, ls[n].owner[p])
    ensures OwnBytes(ls[n], p) <==> forall i :: 0 <= i < n ==> !Miscounts(ls[i], acts[i], p, ls[n].owner[p])
  {
    hide Next, Can, OwnWire, OwnBytes, Leaks, Miscounts, Sound;
    if n > 0 {
      var l, a := ls[n - 1], acts[n - 1];
      SoundAlways(ls, acts, n - 1, n - 1);
      SoundStep(l, a);
      HasConnection(ls[n], p);
      LineEffect(l, a, p);
      if p in l.owner {
        OwnBytesExactly(ls, acts, n - 1, p);
        OwnStep(l, a, p);
      } else {
        NoBytesYet(ls[n], p);
        forall i | 0 <= i < n
          ensures !Leaks(ls[i], acts[i], p, ls[n].owner[p]) && !Miscounts(ls[i], acts[i], p, ls[n].owner[p])
        {
          SoundAlways(ls, acts, i, n - 1);
          SoundAlways(ls, acts, i, i);
          NotTheirs(ls[i], acts[i], p, ls[n].owner[p]);
        }
      }
    }
  }

  lemma HasConnection(l: Line, p: u16)
    requires Sound(l) && p in l.owner
    ensures p in l.dev.connections && p in l.tags && p in l.wired
  {
  }

  /** No connection belongs to a client that has not connected yet. */
  lemma NotTheirs(l: Line, a: Act, p: u16, client: nat)
    requires Sound(l) && l.nextClient <= client
    ensures !Leaks(l, a, p, client) && !Miscounts(l, a, p, client)
  {
  }

  lemma NoBytesYet(l: Line, p: u16)
    requires p in l.tags && p in l.wired && l.tags[p] == [] && l.wired[p] == []
    ensures OwnBytes(l, p) && OwnWire(l, p)
  {
  }

  lemma NoConnection(l: Line, p: u16)
    requires p !in l.owner
    ensures OwnBytes(l, p) && OwnWire(l, p)
  {
  }

  // ---- the guard at removal ----------------------------------------------------------------------

  /** No message for the port waits in the channel. */
  predicate Clean(l: Line, p: u16) { forall i :: 0 <= i < |l.queue| ==> l.queue[i].p != p }

  /** No message for the port is sent and not counted. */
  predicate Idle(l: Line, p: u16) { l.sending.Some? ==> l.sending.value.p != p }

  /** Every message waiting for the port is from the client that has it, as is every byte sent on it. */
  ghost predicate CurrentWire(l: Line, p: u16) {
    && OwnWire(l, p)
    && forall i :: 0 <= i < |l.queue| && l.queue[i].p == p ==> p in l.owner && l.queue[i].client == l.owner[p]
  }

  /** And so are the message not yet counted and the record. */
  ghost predicate Current(l: Line, p: u16) {
    && CurrentWire(l, p) && OwnBytes(l, p)
    && (l.sending.Some? && l.sending.value.p == p ==> p in l.owner && l.sending.value.client == l.owner[p])
  }

  lemma CurrentStep(l: Line, a: Act, p: u16)
    requires Sound(l) && Can(l, a)
    ensures CurrentWire(l, p) && (a == Hangup(p) ==> Clean(l, p)) ==> CurrentWire(Next(l, a), p)
    ensures Current(l, p) && (a == Hangup(p) ==> Clean(l, p) && Idle(l, p)) ==> Current(Next(l, a), p)
  {
    if CurrentWire(l, p) && (a == Hangup(p) ==> Clean(l, p)) {
      SoundStep(l, a);
      CurrentQueue(l, a, p);
      hide Next, Can, OwnWire, OwnBytes;
      var l' := Next(l, a);
      if p !in l'.owner {
        NoConnection(l', p);
      } else if p in l.owner {
        OwnStep(l, a, p);
      } else {
        LineEffect(l, a, p);
        NoBytesYet(l', p);
      }
    }
  }

  lemma CurrentQueue(l: Line, a: Act, p: u16)
    requires Sound(l) && Can(l, a) && CurrentWire(l, p) && (a == Hangup(p) ==> Clean(l, p))
    ensures var l' := Next(l, a);
      && (forall i :: 0 <= i < |l'.queue| && l'.queue[i].p == p ==> p in l'.owner && l'.queue[i].client == l'.owner[p])
      && (Current(l, p) && (a == Hangup(p) ==> Idle(l, p)) && l'.sending.Some? && l'.sending.value.p == p ==>
            p in l'.owner && l'.sending.value.client == l'.owner[p])
  {
    hide IsSynAck, ScaledWindow, Bump16, Add32, HasExact, Receive, OwnBytes, OwnWire;
  }

  /** In a run in which the port is never freed with a message for it waiting, every connection of the port
      sends only its own client's bytes; if none is uncounted then either, its record holds only those. */
  lemma {:induction false} CleanRemovalsSuffice(ls: seq<Line>, acts: seq<Act>, n: nat, p: u16)
    requires Run(ls, acts) && n < |ls|
    requires forall i :: 0 <= i < n && acts[i] == Hangup(p) ==> Clean(ls[i], p)
    ensures CurrentWire(ls[n], p)
    ensures (forall i :: 0 <= i < n && acts[i] == Hangup(p) ==> Idle(ls[i], p)) ==> Current(ls[n], p)
  {
    if n == 0 {
      NothingYet(p);
    } else {
      hide Next, Can, Current, CurrentWire, Clean, Idle, Sound;
      CleanRemovalsSuffice(ls, acts, n - 1, p);
      SoundAlways(ls, acts, n - 1, n - 1);
      var l, a := ls[n - 1], acts[n - 1];
      assert Can(l, a) && ls[n] == Next(l, a) && (a == Hangup(p) ==> Clean(l, p));
      hide Run;
      CurrentStep(l, a, p);
    }
  }

  lemma NothingYet(p: u16)
    ensures CurrentWire(Start(), p) && Current(Start(), p)
  {
  }

  // ---- and it is necessary -------------------------------------------------------------------------

  /** A continuation that frees the port first and not again. */
  ghost predicate Frees(ls: seq<Line>, acts: seq<Act>, l: Line, p: u16) {
    && Trace(ls, acts) && ls[0] == l && |acts| > 0 && acts[0] == Hangup(p)
    && forall i :: 0 < i < |acts| ==> acts[i] != Hangup(p)
  }

  lemma {:induction false} CleanFreeing(ls: seq<Line>, acts: seq<Act>, l: Line, p: u16, n: nat)
    requires Sound(l) && Clean(l, p) && Frees(ls, acts, l, p) && 0 < n < |ls|
    ensures Sound(ls[n]) && CurrentWire(ls[n], p) && (Idle(l, p) ==> Current(ls[n], p))
  {
    if n == 1 {
      SoundStep(l, Hangup(p));
    } else {
      CleanFreeing(ls, acts, l, p, n - 1);
      hide Next, Can, Current, CurrentWire, Sound, Clean, Idle;
      SoundStep(ls[n - 1], acts[n - 1]);
      CurrentStep(ls[n - 1], acts[n - 1], p);
    }
  }

  /** Steps from one state to another that do not free the port. */
  ghost predicate Reaches(ls: seq<Line>, acts: seq<Act>, from: Line, to: Line, p: u16) {
    && Trace(ls, acts) && ls[0] == from && ls[|acts|] == to
    && forall i :: 0 <= i < |acts| ==> acts[i] != Hangup(p)
  }

  lemma Before(a: Act, ls: seq<Line>, acts: seq<Act>, from: Line, to: Line, p: u16)
    requires Can(from, a) && a != Hangup(p) && Reaches(ls, acts, Next(from, a), to, p)
    ensures Reaches([from] + ls, [a] + acts, from, to, p)
  {
    hide Next, Can;
    var ls', acts' := [from] + ls, [a] + acts;
    assert forall i :: 0 < i < |acts'| ==> acts'[i] == acts[i - 1] && ls'[i] == ls[i - 1] && ls'[i + 1] == ls[i];
  }

  lemma AtOnce(l: Line, a: Act, p: u16)
    requires Can(l, a) && a != Hangup(p)
    ensures Reaches([l, Next(l, a)], [a], l, Next(l, a), p)
  {
    hide Next, Can;
  }

  lemma Join(ls: seq<Line>, acts: seq<Act>, ls2: seq<Line>, acts2: seq<Act>, from: Line, mid: Line, to: Line, p: u16)
    requires Reaches(ls, acts, from, mid, p) && Reaches(ls2, acts2, mid, to, p)
    ensures Reaches(ls + ls2[1..], acts + acts2, from, to, p)
  {
    hide Next, Can;
    var all, steps := ls + ls2[1..], acts + acts2;
    forall i | 0 <= i < |steps|
      ensures Can(all[i], steps[i]) && all[i + 1] == Next(all[i], steps[i]) && steps[i] != Hangup(p)
    {
      if i < |acts| {
        assert all[i] == ls[i] && all[i + 1] == ls[i + 1] && steps[i] == acts[i];
      } else {
        var k := i - |acts|;
        assert all[i] == ls2[k] && all[i + 1] == ls2[k + 1] && steps[i] == acts2[k];
      }
    }
    assert all[|steps|] == if acts2 == [] then ls[|acts|] else ls2[|acts2|];
  }

  /** Other clients connect until `p` is the least free port. */
  lemma {:induction false} FillBelow(l: Line, p: u16, q: u16) returns (ls: seq<Line>, acts: seq<Act>, to: Line)
    requires Sound(l) && FIRST_PORT <= q <= p < END_PORT && p !in l.dev.connections
    requires forall x: u16 :: FIRST_PORT <= x < q ==> x in l.dev.connections
    ensures Reaches(ls, acts, l, to, p) && Sound(to) && LeastFree(to.dev, p)
    ensures to.queue == l.queue && to.sending == l.sending && l.nextClient <= to.nextClient
    decreases p - q
  {
    if q == p {
      ls, acts, to := [l], [], l;
    } else if q in l.dev.connections {
      ls, acts, to := FillBelow(l, p, q + 1);
    } else {
      var a := Dial(0, 0, q);
      assert LeastFree(l.dev, q);
      SoundStep(l, a);
      var l' := Next(l, a);
      assert l'.queue == l.queue && l'.sending == l.sending;
      assert l'.dev.connections.Keys == l.dev.connections.Keys + {q};
      hide Next, Sound;
      ls, acts, to := FillBelow(l', p, q + 1);
      Before(a, ls, acts, l, to, p);
      ls, acts := [l] + ls, [a] + acts;
    }
  }

  /** The first messages fail to be sent. */
  lemma {:induction false} Discard(l: Line, k: nat, p: u16) returns (ls: seq<Line>, acts: seq<Act>)
    requires k <= |l.queue| && l.sending.None?
    ensures Reaches(ls, acts, l, l.(queue := l.queue[k..]), p)
    decreases k
  {
    if k == 0 {
      ls, acts := [l], [];
      assert l.queue[0..] == l.queue;
    } else {
      var l' := Next(l, Deliver(false));
      assert l' == l.(queue := l.queue[1..]);
      assert l.queue[1..][k - 1..] == l.queue[k..];
      hide Next;
      ls, acts := Discard(l', k - 1, p);
      Before(Deliver(false), ls, acts, l, l.(queue := l.queue[k..]), p);
      ls, acts := [l] + ls, [Deliver(false)] + acts;
    }
  }

  /** The port belongs to `client`, which has sent nothing yet. */
  ghost predicate Given(l: Line, p: u16, client: nat) {
    && p in l.owner && p in l.tags && p in l.wired && p in l.dev.connections
    && l.owner[p] == client && l.tags[p] == [] && l.wired[p] == []
  }

  function SynAckFor(p: u16): TcpHeader { TcpHeader(80, p, 0, 0, 0x5012, 512) }

  function AcceptAt(p: u16): Act { Arrive(SynAckFor(p), [], None, Some(p), 0) }

  /** A new client gets the port. */
  lemma Redial(l: Line, p: u16) returns (to: Line)
    requires LeastFree(l.dev, p)
    ensures Can(l, Dial(80, 0, p)) && to == Next(l, Dial(80, 0, p))
    ensures Given(to, p, l.nextClient) && to.queue == l.queue && to.sending == l.sending
    ensures to.dev.connections[p].destPort == 80 && to.dev.connections[p].sourcePort == p
  {
    to := Next(l, Dial(80, 0, p));
  }

  /** Its SYN goes out. */
  lemma Synchronise(l: Line, p: u16, client: nat) returns (to: Line)
    requires Given(l, p, client)
    ensures Can(l, SendSyn(p)) && to == Next(l, SendSyn(p)) && Given(to, p, client)
    ensures to.queue == l.queue && to.sending == l.sending && to.nextClient == l.nextClient
    ensures to.dev.connections == l.dev.connections
  {
    hide Bump16;
    to := Next(l, SendSyn(p));
  }

  /** Its connection is accepted. */
  lemma Accept(l: Line, p: u16, client: nat) returns (to: Line)
    requires Given(l, p, client) && l.sending.None?
    requires l.dev.connections[p].destPort == 80 && l.dev.connections[p].sourcePort == p
    ensures Can(l, AcceptAt(p)) && to == Next(l, AcceptAt(p))
    ensures Given(to, p, client) && to.queue == l.queue && to.sending.None? && to.nextClient == l.nextClient
    ensures to.dev.connections[p].state == Connected
  {
    hide Bump16;
    var h := SynAckFor(p);
    assert h.Flags() == 0x12 && Has(0x12, TCP_SYN) && Has(0x12, TCP_ACK);
    assert Exact(l.dev.connections[p], h);
    to := Next(l, AcceptAt(p));
  }

  lemma SendsForeign(l: Line, p: u16, client: nat) returns (l1: Line, l2: Line)
    requires Given(l, p, client) && l.sending.None? && l.dev.connections[p].state == Connected
    requires l.queue != [] && l.queue[0].p == p && l.queue[0].data != [] && l.queue[0].client != client
    ensures Can(l, Deliver(true)) && l1 == Next(l, Deliver(true)) && !OwnWire(l1, p)
    ensures Can(l1, Count) && l2 == Next(l1, Count) && p in l2.owner && !OwnWire(l2, p) && !OwnBytes(l2, p)
  {
    hide Bump16, Add32;
    l1 := Next(l, Deliver(true));
    assert l1.wired[p][0] == l.queue[0].client;
    l2 := Next(l1, Count);
    assert l2.tags[p][0] == l.queue[0].client;
  }

  lemma CountsForeign(l: Line, p: u16, client: nat) returns (l': Line)
    requires Given(l, p, client) && l.sending.Some? && l.sending.value.p == p
    requires l.sending.value.data != [] && l.sending.value.client != client
    ensures Can(l, Count) && l' == Next(l, Count) && p in l'.owner && !OwnBytes(l', p)
  {
    hide Bump16, Add32;
    l' := Next(l, Count);
    assert l'.tags[p][0] == l.sending.value.client;
  }

  lemma Freed(l: Line, p: u16, ls: seq<Line>, acts: seq<Act>, l1: Line, to: Line)
    requires Can(l, Hangup(p)) && l1 == Next(l, Hangup(p)) && Reaches(ls, acts, l1, to, p)
    ensures Frees([l] + ls, [Hangup(p)] + acts, l, p) && ([l] + ls)[|acts| + 1] == to
  {
    hide Next, Can;
    var ls', acts' := [l] + ls, [Hangup(p)] + acts;
    assert forall i :: 0 < i < |acts'| ==> acts'[i] == acts[i - 1] && ls'[i] == ls[i - 1] && ls'[i + 1] == ls[i];
  }

  /** Freeing a port, and a send still to be counted being counted. */
  lemma FreeAndCount(l: Line, p: u16) returns (ls: seq<Line>, acts: seq<Act>, l1: Line, l2: Line)
    requires Sound(l) && Proxied(l, p)
    ensures Can(l, Hangup(p)) && l1 == Next(l, Hangup(p)) && Sound(l1) && p !in l1.dev.connections
    ensures l1.queue == l.queue && l1.sending == l.sending && l1.nextClient == l.nextClient
    ensures Reaches(ls, acts, l1, l2, p) && Sound(l2) && p !in l2.dev.connections
    ensures l2.queue == l.queue && l2.sending.None? && l2.nextClient == l.nextClient
  {
    hide Bump16, Add32;
    SoundStep(l, Hangup(p));
    l1 := Next(l, Hangup(p));
    if l1.sending.Some? {
      SoundStep(l1, Count);
      l2 := Next(l1, Count);
      AtOnce(l1, Count, p);
      ls, acts := [l1, l2], [Count];
    } else {
      l2 := l1;
      ls, acts := [l1], [];
    }
  }

  /** If a message for the port waits when the port is freed, there is a continuation in which the next
      client's connection sends it, and its record holds it. */
  lemma LeakFollows(l: Line, p: u16, k: nat) returns (ls: seq<Line>, acts: seq<Act>)
    requires Sound(l) && Proxied(l, p) && k < |l.queue| && l.queue[k].p == p
    ensures Frees(ls, acts, l, p) && !OwnWire(ls[|acts|], p) && !OwnBytes(ls[|acts|], p)
  {
    var m := l.queue[k];
    InRange(l, p, k);
    hide Next, Can, Sound, Given, Reaches, OwnWire, OwnBytes, LeastFree;
    var lsA, actsA, l1, l2 := FreeAndCount(l, p);
    var lsB, actsB, l3 := FillBelow(l2, p, FIRST_PORT);
    Join(lsA, actsA, lsB, actsB, l1, l2, l3, p);
    var l4 := Redial(l3, p);
    AtOnce(l3, Dial(80, 0, p), p);
    Join(lsA + lsB[1..], actsA + actsB, [l3, l4], [Dial(80, 0, p)], l1, l3, l4, p);
    Grant(l4, p, l3.nextClient);
    var dialled := Synchronise(l4, p, l3.nextClient);
    AtOnce(l4, SendSyn(p), p);
    ls, acts := lsA + lsB[1..] + [l3, l4][1..], actsA + actsB + [Dial(80, 0, p)];
    Join(ls, acts, [l4, dialled], [SendSyn(p)], l1, l4, dialled, p);
    ls, acts := ls + [l4, dialled][1..], acts + [SendSyn(p)];
    var l5 := Accept(dialled, p, l3.nextClient);
    AtOnce(dialled, AcceptAt(p), p);
    Join(ls, acts, [dialled, l5], [AcceptAt(p)], l1, dialled, l5, p);
    ls, acts := ls + [dialled, l5][1..], acts + [AcceptAt(p)];
    var lsC, actsC := Discard(l5, k, p);
    var l6 := l5.(queue := l5.queue[k..]);
    Join(ls, acts, lsC, actsC, l1, l5, l6, p);
    ls, acts := ls + lsC[1..], acts + actsC;
    GivenStill(l5, k, p, l3.nextClient);
    var l7, l8 := SendsForeign(l6, p, l3.nextClient);
    AtOnce(l6, Deliver(true), p);
    Join(ls, acts, [l6, l7], [Deliver(true)], l1, l6, l7, p);
    ls, acts := ls + [l6, l7][1..], acts + [Deliver(true)];
    AtOnce(l7, Count, p);
    Join(ls, acts, [l7, l8], [Count], l1, l7, l8, p);
    ls, acts := ls + [l7, l8][1..], acts + [Count];
    Freed(l, p, ls, acts, l1, l8);
    ls, acts := [l] + ls, [Hangup(p)] + acts;
  }

  lemma InRange(l: Line, p: u16, k: nat)
    requires Sound(l) && Proxied(l, p) && k < |l.queue|
    ensures FIRST_PORT <= p < END_PORT && l.queue[k].data != [] && l.queue[k].client < l.nextClient
  {
  }

  lemma Grant(l: Line, p: u16, client: nat)
    requires Given(l, p, client)
    ensures p in l.dev.connections
  {
  }

  lemma GivenStill(l: Line, k: nat, p: u16, client: nat)
    requires Given(l, p, client) && k <= |l.queue|
    ensures Given(l.(queue := l.queue[k..]), p, client) && p in l.dev.connections
  {
  }

  /** If a message for the port is sent and not counted when the port is freed, there is a continuation in
      which the record of the next client's connection holds it. */
  lemma MiscountFollows(l: Line, p: u16) returns (ls: seq<Line>, acts: seq<Act>)
    requires Sound(l) && Proxied(l, p) && !Idle(l, p)
    ensures Frees(ls, acts, l, p) && !OwnBytes(ls[|acts|], p)
  {
    assert FIRST_PORT <= p < END_PORT && l.sending.value.data != [] && l.sending.value.client < l.nextClient;
    hide Next, Can, Sound, Given, Reaches, OwnBytes, LeastFree;
    var lsA, actsA, l1, l2 := FreeAndCount(l, p);
    var lsB, actsB, l3 := FillBelow(l1, p, FIRST_PORT);
    var l4 := Redial(l3, p);
    AtOnce(l3, Dial(80, 0, p), p);
    Join(lsB, actsB, [l3, l4], [Dial(80, 0, p)], l1, l3, l4, p);
    ls, acts := lsB + [l3, l4][1..], actsB + [Dial(80, 0, p)];
    var l5 := CountsForeign(l4, p, l3.nextClient);
    AtOnce(l4, Count, p);
    Join(ls, acts, [l4, l5], [Count], l1, l4, l5, p);
    ls, acts := ls + [l4, l5][1..], acts + [Count];
    Freed(l, p, ls, acts, l1, l5);
    ls, acts := [l] + ls, [Hangup(p)] + acts;
  }

  /** The exact condition for the wire: after freeing a port, whatever happens next, its next connection
      sends only its own client's bytes, if and only if no message for the port was waiting. */
  lemma CleanRemovalExactly(l: Line, p: u16)
    requires Sound(l) && Proxied(l, p)
    ensures Clean(l, p) <==> forall ls, acts :: Frees(ls, acts, l, p) ==> OwnWire(ls[|acts|], p)
  {
    if Clean(l, p) {
      forall ls, acts | Frees(ls, acts, l, p) ensures OwnWire(ls[|acts|], p) {
        CleanFreeing(ls, acts, l, p, |acts|);
      }
    } else {
      var k :| 0 <= k < |l.queue| && l.queue[k].p == p;
      var ls, acts := LeakFollows(l, p, k);
      assert Frees(ls, acts, l, p);
    }
  }

  /** The exact condition for the record: its next connection is charged only with its own client's bytes
      if and only if no message for the port was waiting and none was sent and not yet counted. */
  lemma IdleRemovalExactly(l: Line, p: u16)
    requires Sound(l) && Proxied(l, p)
    ensures Clean(l, p) && Idle(l, p) <==> forall ls, acts :: Frees(ls, acts, l, p) ==> OwnBytes(ls[|acts|], p)
  {
    if Clean(l, p) && Idle(l, p) {
      forall ls, acts | Frees(ls, acts, l, p) ensures OwnBytes(ls[|acts|], p) {
        CleanFreeing(ls, acts, l, p, |acts|);
      }
    } else if !Idle(l, p) {
      var ls, acts := MiscountFollows(l, p);
      assert Frees(ls, acts, l, p);
    } else {
      var k :| 0 <= k < |l.queue| && l.queue[k].p == p;
      var ls, acts := LeakFollows(l, p, k);
      assert Frees(ls, acts, l, p);
    }
  }

  // ---- two runs from the start ---------------------------------------------------------------------

  /** A client connects and queues one byte, and leaves before it is taken from the channel; the next client
      gets the port and the byte goes out on its connection. */
  function LeftBehind(): seq<Act> {
    [Dial(80, 0, 1024), SendSyn(1024), AcceptAt(1024), Queue(1024, [7]), Hangup(1024),
     Dial(80, 0, 1024), SendSyn(1024), AcceptAt(1024), Deliver(true), Count]
  }

  /** The byte is sent in time, and counted when the next client has the port. */
  function CountedLate(): seq<Act> {
    [Dial(80, 0, 1024), SendSyn(1024), AcceptAt(1024), Queue(1024, [7]), Deliver(true), Hangup(1024),
     Dial(80, 0, 1024), Count]
  }

  /** The first client of either run, its byte queued. */
  lemma FirstClient() returns (l1: Line, l2: Line, l3: Line, l4: Line)
    ensures Can(Start(), Dial(80, 0, 1024)) && l1 == Next(Start(), Dial(80, 0, 1024))
    ensures Can(l1, SendSyn(1024)) && l2 == Next(l1, SendSyn(1024))
    ensures Can(l2, AcceptAt(1024)) && l3 == Next(l2, AcceptAt(1024))
    ensures Can(l3, Queue(1024, [7])) && l4 == Next(l3, Queue(1024, [7]))
    ensures Given(l4, 1024, 0) && l4.queue == [Message(1024, [7], 0)] && l4.sending.None? && l4.nextClient == 1
    ensures l4.dev.connections.Keys == {1024} && l4.dev.connections[1024].state == Connected
  {
    assert LeastFree(Start().dev, 1024);
    l1 := Redial(Start(), 1024);
    l2 := Synchronise(l1, 1024, 0);
    l3 := Accept(l2, 1024, 0);
    StillOne(l2, l3);
    l4 := Next(l3, Queue(1024, [7]));
    assert [] + [Message(1024, [7], 0)] == [Message(1024, [7], 0)];
  }

  lemma StillOne(l: Line, l': Line)
    requires l.dev.connections.Keys == {1024} && Can(l, AcceptAt(1024)) && l' == Next(l, AcceptAt(1024))
    ensures l'.dev.connections.Keys == {1024}
  {
    hide IsSynAck, Bump16, Add32;
    ReceiveEffect(l.dev, SynAckFor(1024), [], Some(1024), 0);
  }

  lemma PortFreed(l: Line) returns (l': Line)
    requires l.dev.connections.Keys == {1024} && l.dev.connections[1024].state == Connected && 1024 in l.owner
    ensures Can(l, Hangup(1024)) && l' == Next(l, Hangup(1024)) && LeastFree(l'.dev, 1024)
    ensures l'.queue == l.queue && l'.sending == l.sending && l'.nextClient == l.nextClient
  {
    l' := Next(l, Hangup(1024));
    assert l'.dev.connections == map[];
  }

  lemma InFlight(l: Line) returns (l': Line)
    requires Given(l, 1024, 0) && l.queue == [Message(1024, [7], 0)] && l.sending.None?
    requires l.dev.connections[1024].state == Connected
    ensures Can(l, Deliver(true)) && l' == Next(l, Deliver(true)) && l'.dev == l.dev && l'.owner == l.owner
    ensures l'.queue == [] && l'.sending == Some(Message(1024, [7], 0)) && l'.nextClient == l.nextClient
  {
    l' := Next(l, Deliver(true));
  }

  /** The first run ends with one client's byte sent on another's connection. */
  lemma LeakHappens() returns (ls: seq<Line>)
    ensures Run(ls, LeftBehind()) && 1024 in ls[10].owner && !OwnWire(ls[10], 1024) && !OwnBytes(ls[10], 1024)
    ensures !Clean(ls[4], 1024)
  {
    hide Next, Can, Start, OwnWire, OwnBytes, LeastFree;
    var l1, l2, l3, l4 := FirstClient();
    var l5 := PortFreed(l4);
    var l6 := Redial(l5, 1024);
    var l7 := Synchronise(l6, 1024, 1);
    var l8 := Accept(l7, 1024, 1);
    var l9, l10 := SendsForeign(l8, 1024, 1);
    ls := [Start(), l1, l2, l3, l4, l5, l6, l7, l8, l9, l10];
    assert ls[4].queue[0].p == 1024;
  }

  /** In the second the channel is clean when the port is freed, and yet the next client's record holds the
      byte. */
  lemma MiscountHappens() returns (ls: seq<Line>)
    ensures Run(ls, CountedLate()) && 1024 in ls[8].owner && !OwnBytes(ls[8], 1024)
    ensures Clean(ls[5], 1024) && !Idle(ls[5], 1024)
  {
    hide Next, Can, Start, OwnBytes, LeastFree;
    var l1, l2, l3, l4 := FirstClient();
    var l5 := InFlight(l4);
    var l6 := PortFreed(l5);
    var l7 := Redial(l6, 1024);
    var l8 := CountsForeign(l7, 1024, 1);
    ls := [Start(), l1, l2, l3, l4, l5, l6, l7, l8];
  }
}
