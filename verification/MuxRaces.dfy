/** Sends are not atomic. `send_client_data` and `send_window_update` build and send under one lock
    and count under a later one, a version exchange sends SETUP before it changes version and counter,
    and a connect takes its port under one lock and builds its SYN under the next, while connects and
    proxies run in tasks of their own. This module keeps the halves apart, lets any USB write fail,
    and finds what survives. */
module MuxRaces {
  import opened Bytes
  import opened MuxCodec
  import opened MuxDevice
  import opened MuxRuns

  /** What the device's task has sent and not counted yet; `at` is its place on the wire, `ok` whether
      the USB write succeeds. A write that fails is not counted. */
  datatype Pending =
    | PendingData(p: u16, data: seq<byte>, at: nat, ok: bool)
    | PendingWindow(ok: bool)
    | PendingVersion(major: u32, at: nat)
  {
    /** Will finishing it advance the frame counter? */
    predicate Counts() { !PendingVersion? && ok }
  }

  /** Beside a connection: its number in the order of opening, where the wire stood then, and the bytes
      it was charged with that had been sent on an earlier connection of the same port. */
  datatype Origin = Origin(serial: nat, born: nat, stray: seq<byte>)

  /** Frames with the extended header: the place of the SETUP frame, and of the first frame sent after
      version and counter were set. */
  datatype Epoch = Epoch(setup: nat, base: nat)

  /** `dialling` holds the ports whose SYN is not built yet, `nextSerial` counts the connections so far. */
  datatype Race = Race(dev: Device, origins: map<u16, Origin>, pending: Option<Pending>, wire: seq<Attempt>,
                       epoch: Option<Epoch>, dialling: set<u16>, nextSerial: nat)

  datatype Act =
    | BeginData(p: u16, data: seq<byte>, ok: bool)
    | BeginWindow(p: u16, cap: nat, ok: bool)
    | BeginVersion(major: u32, ok: bool)
    | Finish
    | TakePort(dport: u16, tag: u32, sport: u16)
    | SendSyn(p: u16, ok: bool)
    | Reply(h: TcpHeader, payload: seq<byte>, peer: Option<u16>, key: Option<u16>, cap: nat, ok: bool)
    | TakeInbound(p: u16)
    | RemoveConn(p: u16)
    | LoseDevice

  /** One task runs sends and arrivals, so none of those starts while a send is pending; connects,
      drains and removals belong to other tasks. */
  ghost predicate Can(r: Race, a: Act) {
    match a
    case BeginData(p, data, _) => r.pending.None? && DataFrame(r.dev, p, data).Some?
    case BeginWindow(p, cap, _) => r.pending.None? && WindowFrame(r.dev, p, cap).Some?
    case BeginVersion(_, _) => r.pending.None?
    case Finish => r.pending.Some?
    case TakePort(_, _, sport) => LeastFree(r.dev, sport)
    case SendSyn(p, _) => p in r.dialling && p in r.dev.connections
    case Reply(h, _, _, key, _, _) => r.pending.None? && Routed(r.dev, h, key)
    case TakeInbound(p) => p in r.dev.connections
    case RemoveConn(p) => true
    case LoseDevice => r.pending.None?
  }

  function Finished(r: Race, send: Pending): Race {
    match send
    case PendingVersion(major, at) =>
      r.(dev := Negotiated(r.dev, major), pending := None, epoch := if major >= 2 then
          Some(Epoch(at, |r.wire|)) else None)
    case PendingWindow(ok) =>
      r.(dev := if ok then r.dev.(txSeq := Bump16(r.dev.txSeq)) else r.dev, pending := None)
    case PendingData(p, data, at, ok) =>
      if !ok then r.(pending := None)
      else if p in r.dev.connections && p in r.origins then
        var o := r.origins[p];
        r.(dev := AfterData(r.dev, p, data), pending := None,
           origins := if at < o.born then r.origins[p := o.(stray := o.stray + data)] else r.origins)
      else r.(dev := r.dev.(txSeq := Bump16(r.dev.txSeq)), pending := None)
  }

  ghost function Next(r: Race, a: Act): Race
    requires Can(r, a)
  {
    match a
    case BeginData(p, data, ok) =>
      r.(wire := r.wire + [Attempt(DataFrame(r.dev, p, data).value, ok)],
         pending := Some(PendingData(p, data, |r.wire|, ok)))
    case BeginWindow(p, cap, ok) =>
      r.(wire := r.wire + [Attempt(WindowFrame(r.dev, p, cap).value, ok)], pending := Some(PendingWindow(ok)))
    case BeginVersion(major, ok) =>
      r.(wire := if major >= 2 then r.wire + [Attempt(SetupFrame(0, 0xFFFF), ok)] else r.wire,
         pending := Some(PendingVersion(major, |r.wire|)), epoch := None)
    case Finish => Finished(r, r.pending.value)
    case TakePort(dport, tag, sport) =>
      r.(dev := Open(r.dev, sport, dport, tag), origins := r.origins[sport := Origin(r.nextSerial, |r.wire|, [])],
         dialling := r.dialling + {sport}, nextSerial := r.nextSerial + 1)
    case SendSyn(p, ok) =>
      r.(dev := AfterSyn(r.dev), wire := r.wire + [Attempt(SynFrame(r.dev, p), ok)], dialling := r.dialling - {p})
    case Reply(h, payload, peer, key, cap, ok) =>
      var got := Receive(Peer(r.dev, peer), h, payload, key, cap);
      r.(dev := got.device, wire := Logged(r.wire, got.reply, ok))
    case TakeInbound(p) => r.(dev := Drained(r.dev, p))
    case RemoveConn(p) => r.(dev := Removed(r.dev, p), origins := r.origins - {p})
    case LoseDevice => r.(dev := AllDead(r.dev))
  }

  function Start(): Race { Race(NewDevice(), map[], None, [], None, {}, 0) }

  ghost predicate RaceRun(rs: seq<Race>, acts: seq<Act>) {
    && |rs| == |acts| + 1 && rs[0] == Start()
    && forall i :: 0 <= i < |acts| ==> Can(rs[i], acts[i]) && rs[i + 1] == Next(rs[i], acts[i])
  }

  // ---- frame numbers under races ----------------------------------------------------

  /** Frames sent since version and counter were set carry 1, 2, 3, …, counting those that use up a
      number. */
  ghost predicate Consecutive(wire: seq<Attempt>, base: nat) {
    base <= |wire| && forall j :: base <= j < |wire| ==> wire[j].frame.Number() == Some(Wrap16(1 + Used(wire[base..j])))
  }

  /** A SYN goes out between a send that succeeds and its count. */
  predicate Disturbs(r: Race, a: Act) { a.SendSyn? && r.pending.Some? && r.pending.value.Counts() }

  predicate Renews(r: Race, a: Act) { a.Finish? && r.pending.Some? && r.pending.value.PendingVersion? }

  /** The number of steps up to the latest completed version exchange. */
  function Since(rs: seq<Race>, acts: seq<Act>, n: nat): (k: nat)
    requires n <= |acts| < |rs|
    ensures k <= n
  {
    if n == 0 then 0 else if Renews(rs[n - 1], acts[n - 1]) then n else Since(rs, acts, n - 1)
  }

  ghost predicate Undisturbed(rs: seq<Race>, acts: seq<Act>, n: nat)
    requires n <= |acts| < |rs|
  {
    forall i :: Since(rs, acts, n) <= i < n ==> !Disturbs(rs[i], acts[i])
  }

  lemma UndisturbedStep(rs: seq<Race>, acts: seq<Act>, n: nat)
    requires 0 < n <= |acts| < |rs|
    ensures Undisturbed(rs, acts, n) <==>
              Renews(rs[n - 1], acts[n - 1]) || (Undisturbed(rs, acts, n - 1) && !Disturbs(rs[n - 1], acts[n - 1]))
  {
    hide Disturbs;
  }

  function Uncounted(r: Race): nat { if r.pending.Some? && r.pending.value.Counts() then 1 else 0 }

  /** The SETUP frame of the epoch, and nothing but SYNs between it and the first numbered frame. */
  ghost predicate AfterSetup(wire: seq<Attempt>, e: Epoch) {
    && e.setup < e.base <= |wire| && wire[e.setup].frame == SetupFrame(0, 0xFFFF)
    && forall j :: e.setup < j < e.base ==> wire[j].frame.TcpFrame? && wire[j].frame.kind == Syn
  }

  /** An epoch is in force exactly while the extended header is and no exchange is under way. */
  ghost predicate InEpoch(r: Race) {
    && (r.epoch.Some? <==> r.dev.version >= 2 && !(r.pending.Some? && r.pending.value.PendingVersion?))
    && (r.epoch.Some? ==> AfterSetup(r.wire, r.epoch.value))
    && (r.pending.Some? && r.pending.value.PendingVersion? && r.pending.value.major >= 2 ==>
          AfterSetup(r.wire, Epoch(r.pending.value.at, |r.wire|)))
  }

  lemma InEpochStep(r: Race, a: Act)
    requires Can(r, a) && InEpoch(r)
    ensures InEpoch(Next(r, a))
  {
    hide IsSynAck, ScaledWindow, Bump16, Add32, HasExact, Receive;
    if a.Reply? {
      ReceiveEffect(Peer(r.dev, a.peer), a.h, a.payload, a.key, a.cap);
    }
  }

  /** What a step inside an epoch puts on the wire and does to the counter. */
  lemma CounterEffect(r: Race, a: Act)
    requires Can(r, a) && r.epoch.Some? && InEpoch(r) && !a.BeginVersion?
    ensures var r' := Next(r, a);
      && r'.epoch == r.epoch
      && if r'.wire == r.wire then
           && r'.dev.txSeq == (if a.Finish? && Uncounted(r) == 1 then Bump16(r.dev.txSeq) else r.dev.txSeq)
           && Uncounted(r') == (if a.Finish? then 0 else Uncounted(r))
         else
           && |r'.wire| == |r.wire| + 1 && r'.wire[..|r.wire|] == r.wire
           && var x := r'.wire[|r.wire|];
           && x.frame.Number() == Some(r.dev.txSeq)
           && (Uncounted(r) == 1 ==> a.SendSyn? && Uncounted(r') == 1)
           && (Uncounted(r') > Uncounted(r) ==> Consumes(x))
           && r'.dev.txSeq == (if Consumes(x) && Uncounted(r') == Uncounted(r) then
                Bump16(r.dev.txSeq) else r.dev.txSeq)
  {
    hide IsSynAck, ScaledWindow, Bump16, Add32, HasExact, Receive, AfterSetup;
    if a.Reply? {
      ReceiveEffect(Peer(r.dev, a.peer), a.h, a.payload, a.key, a.cap);
    }
  }

  lemma ConsecutiveSnoc(w: seq<Attempt>, base: nat, x: Attempt)
    requires base <= |w|
    ensures Consecutive(w + [x], base) <==>
            Consecutive(w, base) && x.frame.Number() == Some(Wrap16(1 + Used(w[base..])))
  {
    hide Wrap16, Used;
    var all := w + [x];
    assert all[base..|w|] == w[base..];
    assert forall j :: base <= j < |w| ==> all[j] == w[j] && all[base..j] == w[base..j];
    if Consecutive(all, base) {
      assert all[|w|] == x;
    }
  }

  lemma WrapNext(n: nat)
    ensures Wrap16(n) != Wrap16(n + 1) && Bump16(Wrap16(n)) == Wrap16(n + 1)
  {
  }

  /** Inside an epoch the numbers so far are right just when `calm`, and then the counter is their
      count. */
  ghost predicate Tallied(r: Race, calm: bool) {
    r.epoch.Some? ==>
      var base := r.epoch.value.base;
      && base <= |r.wire|
      && (Consecutive(r.wire, base) <==> calm)
      && Used(r.wire[base..]) >= Uncounted(r)
      && (calm ==> r.dev.txSeq == Wrap16(1 + Used(r.wire[base..]) - Uncounted(r)))
  }

  lemma TalliedStep(r: Race, a: Act, calm: bool)
    requires Can(r, a) && InEpoch(r) && Tallied(r, calm)
    ensures Tallied(Next(r, a), Renews(r, a) || (calm && !Disturbs(r, a)))
  {
    var r' := Next(r, a);
    if Renews(r, a) {
      NewEpoch(r, a);
    } else if r.epoch.Some? && !a.BeginVersion? {
      CounterEffect(r, a);
      hide Next, Can, Wrap16, Bump16, Consecutive, Used, InEpoch;
      if r'.wire == r.wire {
        WrapNext(Used(r.wire[r.epoch.value.base..]));
      } else {
        TalliedSnoc(r, r', calm);
      }
    } else {
      StillOutside(r, a);
    }
  }

  lemma NewEpoch(r: Race, a: Act)
    requires Can(r, a) && Renews(r, a)
    ensures Tallied(Next(r, a), true)
  {
    var r' := Next(r, a);
    assert r'.wire[|r'.wire|..] == [];
  }

  lemma StillOutside(r: Race, a: Act)
    requires Can(r, a) && InEpoch(r) && (r.epoch.None? || a.BeginVersion?) && !Renews(r, a)
    ensures Next(r, a).epoch.None?
  {
  }

  /** One more frame on the wire, numbered with the counter. */
  lemma TalliedSnoc(r: Race, r': Race, calm: bool)
    requires r.epoch.Some? && Tallied(r, calm) && r'.epoch == r.epoch
    requires |r'.wire| == |r.wire| + 1 && r'.wire[..|r.wire|] == r.wire
    requires r'.wire[|r.wire|].frame.Number() == Some(r.dev.txSeq)
    requires Uncounted(r) == 1 ==> Uncounted(r') == 1
    requires Uncounted(r') > Uncounted(r) ==> Consumes(r'.wire[|r.wire|])
    requires r'.dev.txSeq == if Consumes(r'.wire[|r.wire|]) && Uncounted(r') == Uncounted(r) then
            Bump16(r.dev.txSeq) else r.dev.txSeq
    ensures Tallied(r', calm && Uncounted(r) == 0)
  {
    hide Wrap16, Bump16, Consecutive;
    var base, x := r.epoch.value.base, r'.wire[|r.wire|];
    var used := Used(r.wire[base..]);
    WrapNext(used);
    WrapNext(used + 1);
    assert r'.wire == r.wire + [x];
    ConsecutiveSnoc(r.wire, base, x);
    UsedSnoc(r.wire, base, x);
    hide Used;
  }

  /** Without atomic handlers, with any writes failing and any number of version exchanges: the frames
      sent since the latest exchange carry 1, 2, 3, …, counting those that use up a number, if and only
      if since then no SYN went out between a send that succeeded and its count. SETUP carries zero,
      and only SYNs can come between it and the first of those frames. */
  lemma {:induction false} NumberingUnderRaces(rs: seq<Race>, acts: seq<Act>, n: nat)
    requires RaceRun(rs, acts) && n <= |acts|
    ensures rs[n].epoch.Some? ==> (Consecutive(rs[n].wire, rs[n].epoch.value.base) <==> Undisturbed(rs, acts, n))
    ensures InEpoch(rs[n]) && Tallied(rs[n], Undisturbed(rs, acts, n))
  {
    hide Consecutive, Used;
    if n > 0 {
      NumberingUnderRaces(rs, acts, n - 1);
      UndisturbedStep(rs, acts, n);
      hide Next, Can, Tallied, InEpoch, Undisturbed, Renews, Disturbs;
      var r, a := rs[n - 1], acts[n - 1];
      assert rs[n] == Next(r, a) && Can(r, a);
      InEpochStep(r, a);
      TalliedStep(r, a, Undisturbed(rs, acts, n - 1));
    }
    if rs[n].epoch.Some? {
      TalliedMeaning(rs[n], Undisturbed(rs, acts, n));
    }
  }

  lemma TalliedMeaning(r: Race, calm: bool)
    requires Tallied(r, calm) && r.epoch.Some?
    ensures Consecutive(r.wire, r.epoch.value.base) <==> calm
  {
  }

  // ---- tiling under races --------------------------------------------------------------

  ghost predicate Kept(r: Race) {
    && r.origins.Keys == r.dev.connections.Keys
    && (forall p: u16 :: p in r.origins ==> r.origins[p].born <= |r.wire|)
    && (r.pending.Some? && r.pending.value.PendingData? ==> r.pending.value.at < |r.wire|)
  }

  /** A data send for this port has succeeded and is not counted yet. */
  predicate DataPending(r: Race, p: u16) {
    r.pending.Some? && r.pending.value.PendingData? && r.pending.value.ok && r.pending.value.p == p
  }

  /** Bytes on the wire for this connection that its record does not have yet. */
  ghost function Mine(r: Race, p: u16): seq<byte>
    requires p in r.origins
  {
    if DataPending(r, p) && r.pending.value.at >= r.origins[p].born then r.pending.value.data else []
  }

  ghost predicate StalePending(r: Race, p: u16)
    requires p in r.origins
  {
    DataPending(r, p) && r.pending.value.at < r.origins[p].born
  }

  ghost function Sent(r: Race, p: u16): seq<MuxCodec.Segment>
    requires p in r.origins && r.origins[p].born <= |r.wire|
  {
    DataOn(r.wire[r.origins[p].born..], p)
  }

  /** The segments sent tile the record shifted by the stray bytes. */
  ghost predicate Shifted(r: Race, p: u16)
    requires Kept(r) && p in r.origins
  {
    var c, stray := r.dev.connections[p], r.origins[p].stray;
    && c.obBuf + Mine(r, p) == stray + Payloads(Sent(r, p))
    && c.txSeq == Wrap32(|c.obBuf|)
    && Tiles(Sent(r, p), |stray|)
    && (StalePending(r, p) ==> c.obBuf == [] && stray == [] && Sent(r, p) == [])
  }

  lemma KeptStep(r: Race, a: Act)
    requires Kept(r) && Can(r, a)
    ensures Kept(Next(r, a))
  {
    hide IsSynAck, ScaledWindow, Bump16, Add32, HasExact, Receive;
    if a.Reply? {
      ReceiveEffect(Peer(r.dev, a.peer), a.h, a.payload, a.key, a.cap);
    }
  }

  /** What a step can do to the outbound side of one connection. */
  lemma RaceEffect(r: Race, a: Act, p: u16)
    requires Kept(r) && Can(r, a) && p in Next(r, a).origins && p in Next(r, a).dev.connections
    ensures var r' := Next(r, a);
      && (r'.wire == r.wire || (|r'.wire| == |r.wire| + 1 && r'.wire[..|r.wire|] == r.wire))
      && if p !in r.origins then
           && r'.origins[p] == Origin(r.nextSerial, |r.wire|, []) && r'.nextSerial == r.nextSerial + 1
           && r'.dev.connections[p].obBuf == [] && r'.dev.connections[p].txSeq == 0
           && r'.pending == r.pending && r'.wire == r.wire
         else
           var c, c' := r.dev.connections[p], r'.dev.connections[p];
           && r'.origins[p].born == r.origins[p].born && r'.origins[p].serial == r.origins[p].serial
           && if a.BeginData? && a.p == p && a.ok then
                |r'.wire| == |r.wire| + 1 && IsDataOn(r'.wire[|r.wire|], p) && r.pending.None?
                && r'.pending == Some(PendingData(p, a.data, |r.wire|, true))
                && r'.wire[|r.wire|].frame.segment.seqNo == c.txSeq && r'.wire[|r.wire|].frame.segment.payload == a.data
                && c'.obBuf == c.obBuf && c'.txSeq == c.txSeq && r'.origins[p] == r.origins[p]
              else if a.Finish? && DataPending(r, p) then
                r'.wire == r.wire && r'.pending.None?
                && c'.obBuf == c.obBuf + r.pending.value.data && c'.txSeq == Add32(c.txSeq, |r.pending.value.data|)
                && r'.origins[p].stray == (if StalePending(r, p) then
                     r.origins[p].stray + r.pending.value.data else r.origins[p].stray)
              else
                c'.obBuf == c.obBuf && c'.txSeq == c.txSeq && r'.origins[p] == r.origins[p]
                && (|r'.wire| == |r.wire| + 1 ==> !IsDataOn(r'.wire[|r.wire|], p))
                && Mine(r', p) == Mine(r, p) && StalePending(r', p) == StalePending(r, p)
  {
    hide IsSynAck, ScaledWindow, Bump16, Add32, HasExact, Receive;
    if a.Reply? {
      ReceiveEffect(Peer(r.dev, a.peer), a.h, a.payload, a.key, a.cap);
    }
  }

  /** A send begins: its segment extends the tiling. */
  lemma ShiftedBegin(r: Race, a: Act, p: u16)
    requires Kept(r) && Can(r, a) && a.BeginData? && a.p == p && a.ok && p in r.origins && Shifted(r, p)
    requires Kept(Next(r, a)) && p in Next(r, a).origins
    ensures Shifted(Next(r, a), p)
  {
    RaceEffect(r, a, p);
    hide Next, Can, DataOn, Payloads, Tiles, Wrap32;
    var r' := Next(r, a);
    var x, before := r'.wire[|r.wire|], Sent(r, p);
    assert r'.wire == r.wire + [x];
    DataOnSnoc(r.wire, r.origins[p].born, x, p);
    assert r.dev.connections[p].obBuf + [] == r.dev.connections[p].obBuf;
    TilesSnoc(before, x.frame.segment, |r.origins[p].stray|);
    AppendAssoc(r.origins[p].stray, Payloads(before), a.data);
  }

  /** A send is counted: on the connection it was sent on, or on a later one of the same port. */
  lemma ShiftedFinish(r: Race, p: u16)
    requires Kept(r) && Can(r, Finish) && DataPending(r, p)
    requires p in r.origins && Shifted(r, p) && Kept(Next(r, Finish)) && p in Next(r, Finish).origins
    ensures Shifted(Next(r, Finish), p)
  {
    RaceEffect(r, Finish, p);
    NothingSent(p);
    hide Next, Can, DataOn, Payloads, Tiles, Wrap32;
    var r', data := Next(r, Finish), r.pending.value.data;
    var c, c' := r.dev.connections[p], r'.dev.connections[p];
    Wrap32Add(|c.obBuf|, |data|);
    assert c'.obBuf + [] == c'.obBuf;
    assert Sent(r', p) == Sent(r, p);
    if StalePending(r, p) {
      assert r'.origins[p].stray == data && c'.obBuf == data && data + [] == data;
      NoTiles(|data|);
    }
  }

  lemma ShiftedStep(r: Race, a: Act, p: u16)
    requires Kept(r) && Can(r, a) && (p in r.origins ==> Shifted(r, p))
    requires Kept(Next(r, a)) && p in Next(r, a).origins
    ensures Shifted(Next(r, a), p)
  {
    if p in r.origins && a.BeginData? && a.p == p && a.ok {
      ShiftedBegin(r, a, p);
    } else if p in r.origins && a.Finish? && DataPending(r, p) {
      ShiftedFinish(r, p);
    } else {
      RaceEffect(r, a, p);
      NothingSent(p);
      hide Next, Can, DataOn, Payloads, Tiles, Wrap32;
      var r' := Next(r, a);
      var born := r'.origins[p].born;
      assert p !in r.origins ==> r.wire[born..] == [];
      var before := DataOn(r.wire[born..], p);
      if |r'.wire| == |r.wire| + 1 {
        var x := r'.wire[|r.wire|];
        assert r'.wire == r.wire + [x];
        DataOnSnoc(r.wire, born, x, p);
        assert before + [] == before;
      }
    }
  }

  lemma NoTiles(base: nat)
    ensures Tiles([], base)
  {
  }

  lemma {:induction false} ShiftedAlways(rs: seq<Race>, acts: seq<Act>, n: nat)
    requires RaceRun(rs, acts) && n <= |acts|
    ensures Kept(rs[n]) && forall p: u16 :: p in rs[n].origins ==> Shifted(rs[n], p)
  {
    if n > 0 {
      ShiftedAlways(rs, acts, n - 1);
      KeptStep(rs[n - 1], acts[n - 1]);
      hide Next, Can, Shifted;
      assert rs[n] == Next(rs[n - 1], acts[n - 1]) && Can(rs[n - 1], acts[n - 1]);
      forall p: u16 | p in rs[n].origins ensures Shifted(rs[n], p) {
        ShiftedStep(rs[n - 1], acts[n - 1], p);
      }
    }
  }

  // ---- what charges a connection with bytes it did not send ----------------------------

  /** A send is counted on the connection numbered `serial`, which was opened after the bytes had gone
      out on an earlier connection of the same port. */
  ghost predicate Charge(r: Race, a: Act, p: u16, serial: nat) {
    && a.Finish? && p in r.origins && r.origins[p].serial == serial
    && StalePending(r, p) && r.pending.value.data != []
  }

  /** That happened to the connection now open at `p`. */
  ghost predicate Charged(rs: seq<Race>, acts: seq<Act>, n: nat, p: u16)
    requires n <= |acts| < |rs| && p in rs[n].origins
  {
    exists i :: 0 <= i < n && Charge(rs[i], acts[i], p, rs[n].origins[p].serial)
  }

  lemma {:induction false} SerialsGrow(rs: seq<Race>, acts: seq<Act>, i: nat, j: nat)
    requires RaceRun(rs, acts) && i <= j <= |acts|
    ensures rs[i].nextSerial <= rs[j].nextSerial
  {
    if i < j {
      SerialsGrow(rs, acts, i, j - 1);
      SerialStep(rs[j - 1], acts[j - 1]);
    }
  }

  lemma SerialStep(r: Race, a: Act)
    requires Can(r, a)
    ensures r.nextSerial <= Next(r, a).nextSerial
  {
  }

  /** One step's part: where the connection's origin comes from. */
  lemma OriginStep(r: Race, a: Act, p: u16)
    requires Kept(r) && Can(r, a) && p in Next(r, a).origins && p in Next(r, a).dev.connections
    ensures var r' := Next(r, a);
      && r.nextSerial <= r'.nextSerial
      && if p !in r.origins then r'.origins[p] == Origin(r.nextSerial, |r.wire|, []) && r.nextSerial < r'.nextSerial
         else r'.origins[p].serial == r.origins[p].serial
              && (r'.origins[p].stray == [] <==> r.origins[p].stray == [] && !Charge(r, a, p, r.origins[p].serial))
  {
    RaceEffect(r, a, p);
    SerialStep(r, a);
    hide Next, Can, Mine, Kept;
  }

  /** Stray bytes are exactly what such counts leave. */
  lemma {:induction false} ChargedExactly(rs: seq<Race>, acts: seq<Act>, n: nat, p: u16)
    requires RaceRun(rs, acts) && n <= |acts| && p in rs[n].origins
    ensures rs[n].origins[p].serial < rs[n].nextSerial
    ensures rs[n].origins[p].stray == [] <==> !Charged(rs, acts, n, p)
    decreases n, 0
  {
    hide Next, Can, Shifted, Charge, Charged;
    StartEmpty();
    if n > 0 {
      var r, a := rs[n - 1], acts[n - 1];
      assert rs[n] == Next(r, a) && Can(r, a);
      ShiftedAlways(rs, acts, n - 1);
      ShiftedAlways(rs, acts, n);
      OriginStep(r, a, p);
      hide RaceRun, Kept;
      if p in r.origins {
        ChargedExactly(rs, acts, n - 1, p);
        ChargedStep(rs, acts, n, p);
      } else {
        forall i | 0 <= i < n ensures !Charge(rs[i], acts[i], p, r.nextSerial) {
          NotYetOpened(rs, acts, i, n - 1, p);
        }
        NeverCharged(rs, acts, n, p);
      }
    }
  }

  lemma StartEmpty()
    ensures Start().origins == map[]
  {
  }

  lemma ChargedStep(rs: seq<Race>, acts: seq<Act>, n: nat, p: u16)
    requires 0 < n <= |acts| < |rs| && p in rs[n].origins && p in rs[n - 1].origins
    requires rs[n].origins[p].serial == rs[n - 1].origins[p].serial
    ensures Charged(rs, acts, n, p) <==>
              Charged(rs, acts, n - 1, p) || Charge(rs[n - 1], acts[n - 1], p, rs[n].origins[p].serial)
  {
    hide Charge;
  }

  lemma NeverCharged(rs: seq<Race>, acts: seq<Act>, n: nat, p: u16)
    requires n <= |acts| < |rs| && p in rs[n].origins
    requires forall i :: 0 <= i < n ==> !Charge(rs[i], acts[i], p, rs[n].origins[p].serial)
    ensures !Charged(rs, acts, n, p)
  {
    hide Charge;
  }

  lemma NotYetOpened(rs: seq<Race>, acts: seq<Act>, i: nat, j: nat, p: u16)
    requires RaceRun(rs, acts) && i <= j < |acts|
    ensures !Charge(rs[i], acts[i], p, rs[j].nextSerial)
    decreases i, 1
  {
    hide Next, Can;
    if p in rs[i].origins {
      ChargedExactly(rs, acts, i, p);
      SerialsGrow(rs, acts, i, j);
    }
  }

  /** Client-to-device tiling without atomic handlers. The counter is always the record's length; the
      segments sent tile the stream from zero and spell the record, up to the send still pending, if
      and only if no step counted on this connection a send made on an earlier one of its port, which
      takes a removal and a reconnect between the send and its count. */
  lemma TilingUnderRaces(rs: seq<Race>, acts: seq<Act>, n: nat, p: u16)
    requires RaceRun(rs, acts) && n <= |acts| && p in rs[n].origins
    ensures Kept(rs[n])
    ensures rs[n].dev.connections[p].txSeq == Wrap32(|rs[n].dev.connections[p].obBuf|)
    ensures Tiles(Sent(rs[n], p), 0) && Payloads(Sent(rs[n], p)) == rs[n].dev.connections[p].obBuf + Mine(rs[n], p)
       <==> !Charged(rs, acts, n, p)
  {
    ShiftedAlways(rs, acts, n);
    ChargedExactly(rs, acts, n, p);
    assert Shifted(rs[n], p);
    hide Next, Can, Charged;
    var c, stray := rs[n].dev.connections[p], rs[n].origins[p].stray;
    assert |c.obBuf + Mine(rs[n], p)| == |stray| + |Payloads(Sent(rs[n], p))|;
    if stray == [] {
      assert stray + Payloads(Sent(rs[n], p)) == Payloads(Sent(rs[n], p));
    }
  }

  // ---- both conditions can fail -----------------------------------------------------------

  const ACCEPTED: TcpHeader := TcpHeader(80, 1024, 0, 0, 0x5012, 512)

  /** Version 2 is agreed; a connection is opened and accepted, and sends one byte; before that send is
      counted the client leaves and another one takes the same port. The last two steps are its SYN and
      the count, in either order. */
  function Reconnect(ninth: Act, tenth: Act): seq<Act> {
    [BeginVersion(2, true), Finish, TakePort(80, 0, 1024), SendSyn(1024, true),
     Reply(ACCEPTED, [], None, Some(1024), 0, true), BeginData(1024, [7], true), RemoveConn(1024),
     TakePort(80, 1, 1024), ninth, tenth]
  }

  lemma Agreeing() returns (r1: Race, r2: Race)
    ensures var acts := Reconnect(Finish, Finish);
      && Can(Start(), acts[0]) && r1 == Next(Start(), acts[0]) && Can(r1, acts[1]) && r2 == Next(r1, acts[1])
    ensures r2.dev.connections == map[] && r2.origins == map[] && r2.dev.version == 2 && r2.pending == None
  {
    var acts := Reconnect(Finish, Finish);
    r1 := Next(Start(), acts[0]);
    r2 := Next(r1, acts[1]);
  }

  /** The connection after its handshake. */
  lemma Opening(r2: Race) returns (r3: Race, r4: Race, r5: Race)
    requires r2.dev.connections == map[] && r2.origins == map[] && r2.dev.version == 2 && r2.pending == None
    ensures var acts := Reconnect(Finish, Finish);
      && Can(r2, acts[2]) && r3 == Next(r2, acts[2]) && Can(r3, acts[3]) && r4 == Next(r3, acts[3])
      && Can(r4, acts[4]) && r5 == Next(r4, acts[4])
    ensures r3.pending == None && r5.dev.version == 2 && r5.pending == None
    ensures r5.dev.connections.Keys == r5.origins.Keys == {1024} && r5.dev.connections[1024].state == Connected
  {
    hide Bump16;
    var acts := Reconnect(Finish, Finish);
    assert LeastFree(r2.dev, 1024);
    r3 := Next(r2, acts[2]);
    r4 := Next(r3, acts[3]);
    assert ACCEPTED.Flags() == 0x12 && Has(0x12, TCP_SYN) && Has(0x12, TCP_ACK);
    assert Exact(r4.dev.connections[1024], ACCEPTED);
    r5 := Next(r4, acts[4]);
  }

  /** The new connection, opened after wire position `at`, has this record and has sent nothing. */
  ghost predicate Taken(r: Race, record: seq<byte>, at: nat) {
    && r.dev.version == 2 && 1024 in r.dev.connections && r.dev.connections[1024].obBuf == record
    && 1024 in r.origins && at < r.origins[1024].born <= |r.wire| && Sent(r, 1024) == []
  }

  /** The send is under way when its connection is removed and the port taken again. */
  lemma Leaving(r5: Race) returns (r6: Race, r7: Race, r8: Race)
    requires r5.dev.connections.Keys == r5.origins.Keys == {1024} && r5.dev.connections[1024].state == Connected
    requires r5.dev.version == 2 && r5.pending == None
    ensures var acts := Reconnect(Finish, Finish);
      && Can(r5, acts[5]) && r6 == Next(r5, acts[5]) && Can(r6, acts[6]) && r7 == Next(r6, acts[6])
      && Can(r7, acts[7]) && r8 == Next(r7, acts[7])
    ensures Taken(r8, [], |r5.wire|) && r8.pending == Some(PendingData(1024, [7], |r5.wire|, true))
  {
    hide Bump16;
    var acts := Reconnect(Finish, Finish);
    r6 := Next(r5, acts[5]);
    r7 := Next(r6, acts[6]);
    assert r7.dev.connections == map[] && LeastFree(r7.dev, 1024);
    r8 := Next(r7, acts[7]);
    NothingSent(1024);
    assert r8.wire[r8.origins[1024].born..] == [];
  }

  lemma Counting(r: Race, at: nat) returns (r': Race)
    requires Taken(r, [], at) && r.pending == Some(PendingData(1024, [7], at, true))
    ensures Can(r, Finish) && r' == Next(r, Finish) && Taken(r', [7], at) && r'.pending == None
    ensures r'.origins[1024].serial == r.origins[1024].serial && r'.dialling == r.dialling
    ensures Charge(r, Finish, 1024, r.origins[1024].serial)
  {
    hide Bump16;
    r' := Next(r, Finish);
    assert r'.dev.connections[1024].obBuf == [] + [7];
  }

  lemma Dialling(r: Race, record: seq<byte>, at: nat) returns (r': Race)
    requires Taken(r, record, at) && 1024 in r.dialling
    ensures Can(r, SendSyn(1024, true)) && r' == Next(r, SendSyn(1024, true)) && Taken(r', record, at)
    ensures r'.pending == r.pending && r'.origins == r.origins
  {
    hide Bump16;
    r' := Next(r, SendSyn(1024, true));
    DataOnSnoc(r.wire, r.origins[1024].born, r'.wire[|r.wire|], 1024);
  }

  lemma StillDialling(r7: Race)
    requires Can(r7, TakePort(80, 1, 1024))
    ensures 1024 in Next(r7, TakePort(80, 1, 1024)).dialling
  {
  }

  /** With the SYN first, the run repeats a frame number, and the new connection is charged with the old
      one's byte. */
  lemma RacesHappen() returns (rs: seq<Race>)
    ensures var acts := Reconnect(SendSyn(1024, true), Finish);
      && RaceRun(rs, acts) && rs[10].epoch.Some? && !Consecutive(rs[10].wire, rs[10].epoch.value.base)
      && Taken(rs[10], [7], 0) && Charged(rs, acts, 10, 1024)
  {
    hide Next, Can, Consecutive, Charge, Sent, Tallied, Start;
    var acts := Reconnect(SendSyn(1024, true), Finish);
    var r1, r2 := Agreeing();
    var r3, r4, r5 := Opening(r2);
    var r6, r7, r8 := Leaving(r5);
    StillDialling(r7);
    var r9 := Dialling(r8, [], |r5.wire|);
    var r10 := Counting(r9, |r5.wire|);
    rs := [Start(), r1, r2, r3, r4, r5, r6, r7, r8, r9, r10];
    assert Charge(rs[9], acts[9], 1024, rs[10].origins[1024].serial);
    NumberingUnderRaces(rs, acts, 10);
    assert Disturbs(rs[8], acts[8]) && Since(rs, acts, 10) == Since(rs, acts, 8);
  }

  /** With the count first, between taking the port and the SYN, the new connection is charged all the
      same, and the frame numbers are right. */
  lemma ChargedInSilence() returns (rs: seq<Race>)
    ensures var acts := Reconnect(Finish, SendSyn(1024, true));
      && RaceRun(rs, acts) && rs[10].epoch.Some? && Consecutive(rs[10].wire, rs[10].epoch.value.base)
      && Taken(rs[10], [7], 0) && Charged(rs, acts, 10, 1024)
  {
    hide Next, Can, Consecutive, Charge, Sent, Tallied, Start;
    var acts := Reconnect(Finish, SendSyn(1024, true));
    var r1, r2 := Agreeing();
    var r3, r4, r5 := Opening(r2);
    var r6, r7, r8 := Leaving(r5);
    StillDialling(r7);
    var r9 := Counting(r8, |r5.wire|);
    var r10 := Dialling(r9, [7], |r5.wire|);
    rs := [Start(), r1, r2, r3, r4, r5, r6, r7, r8, r9, r10];
    assert Charge(rs[8], acts[8], 1024, rs[10].origins[1024].serial);
    NumberingUnderRaces(rs, acts, 10);
    assert forall i :: 0 <= i < 10 && acts[i].SendSyn? ==> i == 3 || i == 9;
    assert Undisturbed(rs, acts, 10);
  }
}
