/**
 tracer_comm_process, wait_for_ack and tracer_packet_rx (app/tracer/tracer.c) over the ring in flash.
 The protocol run they make is recorded beside them, step by step.
 */
module TracerComm {
  import opened Machine
  import opened TracerBuffer
  import opened TracerProtocol
  import R = TracerRuns

  const MAX_SEND_RETRY: nat := 5

  /** One more step at the end of a run. */
  lemma {:induction false} RunSnoc(s: Link, acts: seq<Step>, m: Link, a: Step)
    requires IsRun(s, acts, m) && Enabled(m, a)
    requires m.run.ring.save < N && m.run.ring.read < N && m.run.ring.lu < N
    ensures IsRun(s, acts + [a], After(m, a))
    decreases |acts|
  {
    if acts == [] {
      assert ([] + [a])[1..] == [];
    } else {
      assert (acts + [a])[0] == acts[0] && (acts + [a])[1..] == acts[1..] + [a];
      RunSnoc(After(s, acts[0]), acts[1..], m, a);
    }
  }

  /** The record in the packet buffer. */
  ghost function Packed(s: Link): Option<Record>
  {
    if s.packet.Some? && s.packet.value < |s.run.hist| then Some(s.run.hist[s.packet.value]) else None
  }

  /**
   What one call of tracer_comm_process finds: the sleep timer running, the server set up, sending
   allowed by the mode, the network up, the server address known.
   */
  datatype World = World(sleeping: bool, setupOk: bool, maySend: bool, netUp: bool, serverKnown: bool)

  predicate Awake(w: World) { !w.sleeping && w.setupOk }

  predicate Sends(w: World) { Awake(w) && w.maySend && w.netUp }

  /** The ring with one more record flagged and everything read delivered. */
  ghost function OneFlagged(m: Ring, s: Link): Ring
    requires s.packet.Some? && s.packet.value < |s.run.hist|
  {
    m.(flash := m.flash[R.At(s.packet.value) := Some(Flagged(s.run.hist[s.packet.value]))], lu := m.read)
  }

  class Comm {
    const buf: TracerBuf
    var ack: bool
    var packet: Option<Record>
    var sendRetry: nat
    ghost var link: Link
    ghost var acts: seq<Step>

    ghost predicate Valid()
      reads this, buf, buf.flash
    {
      && buf.Valid() && buf.View() == link.run.ring && ack == link.ack
      && packet == Packed(link) && (link.packet.Some? ==> packet.Some?)
      && IsRun(BOOT, acts, link)
    }

    /** An erased ring, nothing in the packet buffer. */
    constructor (buf: TracerBuf)
      requires buf.Valid() && buf.View() == R.START.ring
      ensures Valid() && this.buf == buf && link == BOOT
    {
      this.buf := buf;
      ack, packet, sendRetry := false, None, 0;
      link, acts := BOOT, [];
    }

    ghost method Record(a: Step)
      requires buf.Valid() && IsRun(BOOT, acts, link) && Enabled(link, a)
      requires link.run.ring.save < N && link.run.ring.read < N && link.run.ring.lu < N
      requires var t := After(link, a);
               buf.View() == t.run.ring && ack == t.ack && packet == Packed(t) && (t.packet.Some? ==> packet.Some?)
      modifies `link, `acts
      ensures Valid() && link == After(old(link), a) && acts == old(acts) + [a]
    {
      RunSnoc(BOOT, acts, link, a);
      link := After(link, a);
      acts := acts + [a];
    }

    /** The invariant of every run, for the state the program is in. */
    lemma Reached()
      requires Valid()
      ensures Inv(link) && (Reinit !in acts ==> OnlyAnsweredFlagged(link))
    {
      RunKeeps(BOOT, acts, link);
    }

    /** tracer_packet_rx */
    method PacketRx(portOk: bool, replyOk: bool) returns (taken: bool)
      requires Valid()
      modifies this`ack, this`link, this`acts
      ensures Valid() && taken == (portOk && replyOk)
      ensures link == if taken then After(old(link), Reply) else old(link)
    {
      if !portOk || !replyOk {
        return false;
      }
      ack := true;
      Record(Reply);
      taken := true;
    }

    /** tracer_new_point stores a point while a packet may be on its way. */
    method NewPoint(pos: Position, track: U16, point: U16, flags: bv8, info: U32)
      requires Valid() && Enabled(link, StorePoint(TracerBuffer.Record(track, point, pos, info, flags)))
      modifies this`link, this`acts, buf`save, buf`records, buf.flash
      ensures Valid() && link == After(old(link), StorePoint(TracerBuffer.Record(track, point, pos, info, flags)))
    {
      buf.StorePosition(pos, track, point, flags, info);
      Record(StorePoint(TracerBuffer.Record(track, point, pos, info, flags)));
    }

    /** The next unread record goes into the packet buffer. */
    method ReadAndBuild()
      requires Valid() && link.phase == Idle && packet == None && link.run.passed < |link.run.hist|
      requires Inv(link)
      modifies this`packet, this`link, this`acts, buf`read
      ensures Valid() && link == After(After(old(link), Fetch), Build)
      ensures packet == Some(old(link.run.hist)[old(link.run.passed)])
      ensures buf.View() == ReadNext(old(buf.View())).0
    {
      ReadNotEmpty(link.run);
      R.ReadReturns(link.run);
      var slot, r := buf.ReadNextRecord();
      if slot >= 0 {
        Record(Fetch);
        packet := r;
        Record(Build);
      }
    }

    /** The branch with nothing pending. */
    method Prepare()
      requires Valid() && link.phase == Idle && packet == None
      modifies this`packet, this`link, this`acts, buf`read
      ensures Valid() && link.phase == Idle
      ensures link == if old(link.run.passed) < |old(link.run.hist)|
                      then After(After(old(link), Fetch), Build) else old(link)
      ensures if old(link.run.passed) < |old(link.run.hist)|
              then packet == Some(old(link.run.hist)[old(link.run.passed)]) && buf.View() == ReadNext(old(buf.View())).0
              else packet == None && buf.View() == old(buf.View())
    {
      Reached();
      ReadNotEmpty(link.run);
      if buf.read == buf.save {
        return;
      }
      ReadAndBuild();
    }

    /** The acknowledge is forgotten and the packet goes out; datagrams may come in between the two. */
    method Transmit(early: seq<Arrival>)
      requires Valid() && link.phase == Idle && packet.Some?
      modifies this`ack, this`link, this`acts
      ensures Valid() && link.phase == Polling && (ack <==> AnyAccepted(early))
      ensures Sending(old(link), link) && link.packet.value in link.sent
      ensures link.answered == if AnyAccepted(early) then old(link.answered) + old(link.sent) else old(link.answered)
    {
      ack := false;
      Record(Clear);
      var i := 0;
      while i < |early|
        invariant 0 <= i <= |early| && Valid() && link.phase == Cleared && Sending(old(link), link)
        invariant (ack <==> AnyAccepted(early[..i])) && link.sent == old(link.sent)
        invariant link.answered == if ack then old(link.answered) + old(link.sent) else old(link.answered)
      {
        if early[i].Datagram? {
          var _ := PacketRx(early[i].portOk, early[i].replyOk);
        }
        assert early[..i + 1] == early[..i] + [early[i]];
        i := i + 1;
      }
      assert early[..i] == early;
      Record(Send);
    }

    /**
     wait_for_ack: one arrival or none in each turn of the loop, as many turns as the timeout allows. It ends
     with an acknowledge when one was there before the first turn, or an accepted datagram comes in one.
     */
    method WaitForAck(arrivals: seq<Arrival>) returns (got: bool)
      requires Valid() && link.phase == Polling
      modifies this`ack, this`link, this`acts
      ensures Valid() && link.phase == if got then Acked else Idle
      ensures got <==> (old(ack) && arrivals != []) || AnyAccepted(arrivals)
      ensures Sending(old(link), link) && link.sent == old(link.sent)
      ensures got ==> !ack
      ensures link.answered == old(link.answered) ||
              (AnyAccepted(arrivals) && link.answered == old(link.answered) + old(link.sent))
      ensures !old(ack) && got ==> link.answered == old(link.answered) + old(link.sent)
      ensures old(ack) && arrivals != [] && !Accepted(arrivals[0]) ==> link.answered == old(link.answered)
    {
      got := false;
      var i := 0;
      while i < |arrivals|
        invariant 0 <= i <= |arrivals| && Valid() && link.phase == Polling && Sending(old(link), link)
        invariant ack == old(ack) && (i > 0 ==> !ack)
        invariant !AnyAccepted(arrivals[..i]) && link.sent == old(link.sent) && link.answered == old(link.answered)
      {
        var a := arrivals[i];
        if a.Datagram? {
          var _ := PacketRx(a.portOk, a.replyOk);
        }
        assert arrivals[..i + 1] == arrivals[..i] + [a];
        if ack {
          ack := false;
          Record(TakeAck);
          return true;
        }
        i := i + 1;
      }
      assert arrivals[..i] == arrivals;
      Record(Timeout);
    }

    /** The marking loop is one run of marking steps. */
    method FlagAll()
      requires Valid() && link.phase == Flagging
      modifies this`link, this`acts, buf`lu, buf`records, buf.flash
      ensures Valid() && link.phase == Idle && link.packet == None && link.dropped == 0
      ensures buf.View() == MarkUpTo(old(buf.View()))
      ensures link.run.hist == old(link.run.hist) && link.answered == old(link.answered)
    {
      Reached();
      ghost var ms, t := MarksRun(link);
      buf.DeliveredAll();
      Concat(BOOT, acts, link, ms, t);
      link, acts := t, acts + ms;
    }

    /** After the acknowledge: the packet is released and everything read so far is flagged. */
    method Settle()
      requires Valid() && link.phase == Acked
      modifies this`packet, this`sendRetry, this`link, this`acts, buf`lu, buf`records, buf.flash
      ensures Valid() && link.phase == Idle && packet == None && sendRetry == 0
      ensures buf.View() == MarkUpTo(old(buf.View())) && link.dropped == 0
      ensures link.run.hist == old(link.run.hist) && link.answered == old(link.answered)
    {
      sendRetry := 0;
      packet := None;
      Record(Release);
      FlagAll();
    }

    /** Transmit, wait, and settle when an acknowledge was there or came; true in that case. */
    method SendPacket(early: seq<Arrival>, arrivals: seq<Arrival>) returns (got: bool)
      requires Valid() && link.phase == Idle && packet.Some?
      modifies this`ack, this`packet, this`sendRetry, this`link, this`acts, buf`lu, buf`records, buf.flash
      ensures Valid() && link.phase == Idle && (got <==> Taken(early, arrivals))
      ensures !got ==> buf.View() == old(buf.View()) && packet == old(packet) && sendRetry == old(sendRetry)
      ensures got ==> packet == None && sendRetry == 0
      ensures got ==> buf.View() == MarkUpTo(old(buf.View()))
      ensures got && old(link.dropped) == 0 ==> buf.View() == OneFlagged(old(buf.View()), old(link))
      ensures got && !AnyAccepted(early) ==> old(link.packet.value) in link.answered
      ensures got && AnyAccepted(early) && !Accepted(arrivals[0]) ==> link.answered == old(link.answered) + old(link.sent)
    {
      Transmit(early);
      got := WaitForAck(arrivals);
      if got {
        Reached();
        AckFlags(link);
        Settle();
      }
    }

    /** Servers unknown: the configuration is read again and the packet is thrown away. */
    method Drop()
      requires Valid() && link.phase == Idle
      modifies this`ack, this`packet, this`link, this`acts
      ensures Valid() && !ack && packet == None && link == After(old(link), Reinit)
    {
      ack := false;
      packet := None;
      Record(Reinit);
    }

    /**
     tracer_comm_process. A pending packet is sent and, when a reply is accepted since the acknowledge was
     cleared, its record and no other is flagged; that reply followed the transmission unless one came in
     before it. Without a reply it stays for the next try. With nothing pending the next unread record is prepared.
     */
    method CommProcess(w: World, early: seq<Arrival>, arrivals: seq<Arrival>)
      requires Valid() && link.phase == Idle
      modifies this`ack, this`packet, this`sendRetry, this`link, this`acts, buf`read, buf`lu, buf`records, buf.flash
      ensures Valid() && link.phase == Idle
      ensures !Awake(w) || (old(packet).Some? && !Sends(w)) ==> buf.View() == old(buf.View()) && packet == old(packet)
      ensures Awake(w) && old(packet) == None ==>
                if old(link.run.passed) < |old(link.run.hist)|
                then packet == Some(old(link.run.hist)[old(link.run.passed)]) && buf.View() == ReadNext(old(buf.View())).0
                else packet == None && buf.View() == old(buf.View())
      ensures Sends(w) && old(packet).Some? && !w.serverKnown ==> packet == None && buf.View() == old(buf.View())
      ensures Sends(w) && old(packet).Some? && w.serverKnown ==>
                if Taken(early, arrivals)
                then packet == None && (old(link.dropped) == 0 ==> buf.View() == OneFlagged(old(buf.View()), old(link)))
                else packet == old(packet) && buf.View() == old(buf.View())
      // the retries since the last success, five at most
      ensures sendRetry == (if !Awake(w) || old(packet) == None || !w.maySend || (w.netUp && !w.serverKnown)
                            then old(sendRetry)
                            else if w.netUp && Taken(early, arrivals) then 0
                            else if old(sendRetry) < 5 then old(sendRetry) + 1 else old(sendRetry))
      ensures Sends(w) && old(packet).Some? && w.serverKnown && Taken(early, arrivals) ==>
                if !AnyAccepted(early) then old(link.packet.value) in link.answered
                else Accepted(arrivals[0]) || link.answered == old(link.answered) + old(link.sent)
    {
      if w.sleeping || !w.setupOk {
        return;
      }
      if packet == None {
        Prepare();
        return;
      }
      if !w.maySend {
        return;
      }
      if w.netUp {
        if !w.serverKnown {
          Drop();
          return;
        }
        var got := SendPacket(early, arrivals);
        if got {
          return;
        }
      }
      if sendRetry < MAX_SEND_RETRY {
        sendRetry := sendRetry + 1;
      }
    }
  }

  datatype Arrival = Nothing | Datagram(portOk: bool, replyOk: bool)

  predicate Accepted(a: Arrival) { a.Datagram? && a.portOk && a.replyOk }

  predicate AnyAccepted(arrivals: seq<Arrival>) { exists k :: 0 <= k < |arrivals| && Accepted(arrivals[k]) }

  /** An acknowledge is taken: it was there before the first turn, or came in one. */
  predicate Taken(early: seq<Arrival>, arrivals: seq<Arrival>)
  {
    arrivals != [] && (AnyAccepted(early) || AnyAccepted(arrivals))
  }

  /** What a transmission and its wait leave alone. */
  ghost predicate Sending(s: Link, t: Link)
  {
    t.run == s.run && t.packet == s.packet && t.dropped == s.dropped
  }

  /** The marking loop as steps of the protocol. */
  lemma {:induction false} MarksRun(s: Link) returns (ms: seq<Step>, t: Link)
    requires Inv(s) && s.phase == Flagging
    ensures IsRun(s, ms, t) && t.run.ring == MarkUpTo(s.run.ring) && t.run.hist == s.run.hist
    ensures t.phase == Idle && t.dropped == 0 && t.packet == s.packet && t.ack == s.ack && t.answered == s.answered
    decreases s.run.passed - s.run.flagged
  {
    var m := After(s, MarkStep);
    StepKeeps(s, MarkStep);
    R.MarkKeeps(s.run);
    if s.run.ring.lu == s.run.ring.read {
      ms, t := [MarkStep], m;
      assert IsRun(m, [], m) && [MarkStep][1..] == [];
    } else {
      var rest;
      rest, t := MarksRun(m);
      ms := [MarkStep] + rest;
      Prepend(s, MarkStep, rest, t);
    }
  }
}
