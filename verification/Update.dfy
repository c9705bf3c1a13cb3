/**
 Firmware update over UDP (app/update.c): the receive task and the sending task share a
 phase counter and an acknowledge flag; packets are lost, repeated and reordered at will, and
 either task may go on while the other stands between two statements.
 */
module Update {
  import opened Machine

  const CHUNK_SIZE: nat := 256
  const FW_MAX_SIZE: nat := 262144           // app/storage.c
  const ERR_LIMIT: nat := 100

  const ID_UPDATE_RES: U32 := 0xF0AA
  const ID_CHUNK_RES: U32 := 0xF1AA
  const RESULT_START: U32 := 0xFF
  const STATUS_DONE: U8 := 1
  const STATUS_OK: U8 := 2

  const HDR_LEN: nat := 8
  const UPDATE_RES_LEN: nat := 16
  const CHUNK_RES_LEN: nat := 268

  type Chunk = c: seq<bv8> | |c| == CHUNK_SIZE witness seq(CHUNK_SIZE, _ => 0)

  /** A received datagram; the fields after packetId are those of its type. */
  datatype Packet = Packet(port: U16, len: nat, unitId: U32, packetId: U32,
                           result: U32, chunkId: nat, status: U8, data: Chunk)

  /** The sender: Waiting since it cleared the acknowledge, Taken until it counts the phase. */
  datatype Sender = Idle | Waiting(request: bool) | Taken(request: bool)

  /**
   Where update_packet_rx stands: past its tests with a chunk to write, with the chunk written, with an
   answer that ends the update, or only the acknowledge left to set. from is the phase its tests saw.
   */
  datatype Handler =
    | Free
    | Writing(from: nat, c: nat, data: Chunk, last: bool)
    | Wrote(from: nat, c: nat, last: bool)
    | Refusing(from: nat)
    | Noting(from: nat, chunk: Option<nat>)

  datatype Unit = Unit(phase: nat, ack: bool, rq: bool, err: nat, fw: seq<bv8>, flashed: bool, at: Sender, hand: Handler)

  datatype Config = Config(port: U16, unitId: U32)

  // ---- flash area ----

  /** The bytes of data one after the other, from offset on. */
  function Put(fw: seq<bv8>, offset: nat, data: seq<bv8>): (r: seq<bv8>)
    requires offset + |data| <= |fw|
    ensures |r| == |fw|
  {
    if data == [] then fw
    else
      var n := |data| - 1;
      Put(fw, offset, data[..n])[offset + n := data[n]]
  }

  lemma {:induction false} PutAt(fw: seq<bv8>, offset: nat, data: seq<bv8>, k: nat)
    requires offset + |data| <= |fw| && k < |fw|
    ensures Put(fw, offset, data)[k] == if offset <= k < offset + |data| then data[k - offset] else fw[k]
  {
    if data != [] {
      PutAt(fw, offset, data[..|data| - 1], k);
    }
  }

  /** A chunk that does not fit is not written. */
  function Write(fw: seq<bv8>, offset: nat, data: seq<bv8>): (r: seq<bv8>)
    ensures |r| == |fw|
  {
    if offset + |data| > |fw| then fw else Put(fw, offset, data)
  }

  predicate Written(fw: seq<bv8>, image: seq<Chunk>, c: nat)
    requires c < |image|
  {
    (c + 1) * CHUNK_SIZE <= |fw| && forall k :: 0 <= k < CHUNK_SIZE ==> fw[c * CHUNK_SIZE + k] == image[c][k]
  }

  // ---- the receive task ----

  /** update_packet_rx: the new state and whether the packet was taken. */
  function Rx(cfg: Config, s: Unit, p: Packet): (Unit, bool)
  {
    if p.port != cfg.port || !s.rq || p.len < HDR_LEN || p.unitId != cfg.unitId then (s, false)
    else if p.packetId == ID_UPDATE_RES then
      if s.phase != 0 then (s.(ack := true), true)
      else if p.len < UPDATE_RES_LEN then (s, false)
      else (s.(ack := true, rq := p.result == RESULT_START), true)
    else if p.packetId == ID_CHUNK_RES then
      if p.len < CHUNK_RES_LEN || p.chunkId != (s.phase - 1) % 0x1_0000_0000 then (s, false)
      else if p.status == STATUS_OK then
        (s.(ack := true, fw := Write(s.fw, p.chunkId * CHUNK_SIZE, p.data)), true)
      else if p.status == STATUS_DONE then
        (s.(ack := true, fw := Write(s.fw, p.chunkId * CHUNK_SIZE, p.data), rq := false, flashed := true), true)
      else (s, false)
    else (s, false)
  }

  /** The statics of update.c and the firmware area of the flash. */
  class Updater {
    const cfg: Config
    const fw: array<bv8>
    var phase: nat
    var ack: bool
    var rq: bool
    var err: nat
    var flashed: bool
    ghost var at: Sender

    ghost function View(): Unit
      reads this, fw
    {
      Unit(phase, ack, rq, err, fw[..], flashed, at, Free)
    }

    constructor (cfg: Config, fw: array<bv8>)
      ensures this.cfg == cfg && this.fw == fw && View() == Unit(0, false, false, 0, fw[..], false, Idle, Free)
    {
      this.cfg, this.fw := cfg, fw;
      phase, ack, rq, err, flashed, at := 0, false, false, 0, false, Idle;
    }

    method WriteChunk(chunkId: nat, data: Chunk)
      modifies fw
      ensures fw[..] == Write(old(fw[..]), chunkId * CHUNK_SIZE, data)
    {
      var offset := chunkId * CHUNK_SIZE;
      if offset + CHUNK_SIZE <= fw.Length {
        ghost var before := fw[..];
        forall i | 0 <= i < CHUNK_SIZE {
          fw[offset + i] := data[i];
        }
        forall k | 0 <= k < fw.Length ensures fw[k] == Put(before, offset, data)[k] {
          PutAt(before, offset, data, k);
        }
      }
    }

    method PacketRx(p: Packet) returns (taken: bool)
      modifies `ack, `rq, `flashed, fw
      ensures (View(), taken) == Rx(cfg, old(View()), p)
    {
      if p.port != cfg.port || !rq || p.len < HDR_LEN || p.unitId != cfg.unitId {
        return false;
      }
      if p.packetId == ID_UPDATE_RES {
        if phase == 0 {
          if p.len < UPDATE_RES_LEN {
            return false;
          }
          if p.result != RESULT_START {
            rq := false;
          }
        }
      } else if p.packetId == ID_CHUNK_RES {
        var chunkId: U32 := (phase - 1) % 0x1_0000_0000;
        if p.len < CHUNK_RES_LEN || p.chunkId != chunkId {
          return false;
        }
        if p.status == STATUS_OK {
          WriteChunk(chunkId, p.data);
        } else if p.status == STATUS_DONE {
          WriteChunk(chunkId, p.data);
          rq := false;
          flashed := true;
        } else {
          return false;
        }
      } else {
        return false;
      }
      ack := true;
      return true;
    }

    /** update_start, its configuration being readable or not. */
    method Start(configured: bool) returns (ok: bool)
      modifies this
      ensures View() == After(cfg, old(View()), Restart(configured))
    {
      if rq || !configured {
        return false;
      }
      err, phase, rq := 0, 0, true;
      return true;
    }

    /** update_task up to the poll for an answer; net_udp_tx may refuse the packet after the clear. */
    method BeginSend(net: Net, txOk: bool) returns (sent: bool)
      requires at == Idle
      modifies this
      ensures var t := After(cfg, old(View()), Send(net));
              View() == if t.at.Waiting? && !txOk then After(cfg, t, Timeout) else t
      ensures sent <==> at.Waiting?
    {
      if !rq {
        return false;
      }
      if err >= ERR_LIMIT {
        rq := false;
      }
      if net == Down {
        return false;
      }
      if net == Unresolved {
        err := err + 1;
        return false;
      }
      ack := false;
      at := Waiting(phase == 0);
      if !txOk {
        err := err + 1;
        at := Idle;
        return false;
      }
      return true;
    }

    /** One turn of the poll in _wait_for_ack. */
    method Poll() returns (answered: bool)
      requires at.Waiting?
      modifies this
      ensures answered <==> old(ack)
      ensures View() == if old(ack) then After(cfg, old(View()), TakeAck) else old(View())
    {
      if !ack {
        return false;
      }
      ack := false;
      at := Taken(at.request);
      return true;
    }
  }

  // ---- both tasks as steps ----

  /** net_connect failed, the server name could not be resolved, or neither. */
  datatype Net = Down | Unresolved | Up

  datatype Step =
    | Arrive(p: Packet)          // update_packet_rx up to the end of its tests
    | Go                         // it goes on to the next change of the shared state
    | Restart(configured: bool)
    | Send(net: Net)             // update_task up to the cleared acknowledge
    | TakeAck
    | Timeout                    // no answer came, or net_udp_tx refused the packet
    | Advance

  predicate Enabled(s: Unit, a: Step)
  {
    match a
    case Arrive(_) => s.hand == Free
    case Go => s.hand != Free
    case Restart(_) => true
    case Send(_) => s.at == Idle
    case TakeAck => s.at.Waiting? && s.ack
    case Timeout => s.at.Waiting?
    case Advance => s.at.Taken?
  }

  /** What the tests of update_packet_rx make of a packet. */
  function Tested(cfg: Config, s: Unit, p: Packet): Handler
  {
    if p.port != cfg.port || !s.rq || p.len < HDR_LEN || p.unitId != cfg.unitId then Free
    else if p.packetId == ID_UPDATE_RES then
      if s.phase != 0 then Noting(s.phase, None)
      else if p.len < UPDATE_RES_LEN then Free
      else if p.result != RESULT_START then Refusing(s.phase)
      else Noting(s.phase, None)
    else if p.packetId == ID_CHUNK_RES then
      if p.len < CHUNK_RES_LEN || p.chunkId != (s.phase - 1) % 0x1_0000_0000 then Free
      else if p.status == STATUS_OK then Writing(s.phase, p.chunkId, p.data, false)
      else if p.status == STATUS_DONE then Writing(s.phase, p.chunkId, p.data, true)
      else Free
    else Free
  }

  function Gone(s: Unit): Unit
  {
    match s.hand
    case Free => s
    case Writing(from, c, data, last) => s.(fw := Write(s.fw, c * CHUNK_SIZE, data), hand := Wrote(from, c, last))
    case Wrote(from, c, last) =>
      var t := s.(hand := Noting(from, Some(c)));
      if last then t.(rq := false, flashed := true) else t
    case Refusing(from) => s.(rq := false, hand := Noting(from, None))
    case Noting(_, _) => s.(ack := true, hand := Free)
  }

  function After(cfg: Config, s: Unit, a: Step): Unit
  {
    match a
    case Arrive(p) => s.(hand := Tested(cfg, s, p))
    case Go => Gone(s)
    case Restart(configured) => if s.rq || !configured then s else s.(err := 0, phase := 0, rq := true)
    case Send(net) =>
      if !s.rq then s
      else
        var t := s.(rq := s.err < ERR_LIMIT);
        (match net
         case Down => t
         case Unresolved => t.(err := s.err + 1)
         case Up => t.(ack := false, at := Waiting(s.phase == 0)))
    case TakeAck => if s.at.Waiting? then s.(ack := false, at := Taken(s.at.request)) else s
    case Timeout => s.(err := s.err + 1, at := Idle)
    case Advance =>
      if s.at.Taken? then s.(phase := s.phase + 1, at := Idle, err := if s.at.request then s.err else 0) else s
  }

  /** A handler that nothing interrupts. */
  lemma RxAlone(cfg: Config, s: Unit, p: Packet)
    requires s.hand == Free
    ensures Rx(cfg, s, p).0 == Gone(Gone(Gone(After(cfg, s, Arrive(p)))))
    ensures Rx(cfg, s, p).1 <==> Tested(cfg, s, p) != Free
  {
  }

  /** Which packets are taken: those for this unit in an update, of the right kind, length, chunk and status. */
  lemma TakenExact(cfg: Config, s: Unit, p: Packet)
    ensures Rx(cfg, s, p).1 <==>
              && s.rq && p.port == cfg.port && p.unitId == cfg.unitId && p.len >= 8
              && ((p.packetId == 0xF0AA && (s.phase > 0 || p.len >= 16))
                  || (p.packetId == 0xF1AA && p.len >= 268 && p.chunkId == (s.phase - 1) % 0x1_0000_0000
                      && (p.status == 1 || p.status == 2)))
    ensures !Rx(cfg, s, p).1 ==> Rx(cfg, s, p).0 == s
  {
  }

  /** A packet the one server with this image may have sent, at any time, for any request. */
  predicate Genuine(image: seq<Chunk>, p: Packet)
  {
    p.packetId == ID_CHUNK_RES && p.status in {STATUS_OK, STATUS_DONE} ==>
      && p.chunkId < |image| && p.data == image[p.chunkId]
      && (p.status == STATUS_DONE <==> p.chunkId == |image| - 1)
  }

  /**
   An acknowledge about to be set while the sender waits for a chunk, not the last one, that is not
   written, in an update that goes on.
   */
  predicate Harmful(s: Unit, image: seq<Chunk>)
  {
    s.hand.Noting? && s.at.Waiting? && s.rq && 0 < s.phase < |image| && !Written(s.fw, image, s.phase - 1)
  }

  predicate Allowed(cfg: Config, image: seq<Chunk>, s: Unit, a: Step)
  {
    Enabled(s, a) && (a.Arrive? ==> Genuine(image, a.p))
  }

  ghost predicate Upto(fw: seq<bv8>, image: seq<Chunk>, k: int)
  {
    forall c :: 0 <= c < k && c < |image| ==> Written(fw, image, c)
  }

  /** How many chunks must be written in a phase: the last one is seen to by the answer that ends the update. */
  function Due(image: seq<Chunk>, k: int): int { if k < |image| then k else |image| - 1 }

  /** A chunk of the image, and the one the tests looked for in that phase. */
  predicate From(from: nat, c: nat, image: seq<Chunk>) { c < |image| && c == (from - 1) % 0x1_0000_0000 }

  ghost predicate HandSafe(s: Unit, image: seq<Chunk>)
  {
    match s.hand
    case Writing(from, c, data, last) =>
      From(from, c, image) && data == image[c] && (last ==> c == |image| - 1) && Upto(s.fw, image, c)
    case Wrote(from, c, last) => From(from, c, image) && (last ==> c == |image| - 1) && Upto(s.fw, image, c + 1)
    case Noting(from, Some(c)) => From(from, c, image) && Written(s.fw, image, c)
    case _ => true
  }

  /**
   Every chunk before the current one is written; so is the current one once its answer is
   noted or taken; and after main_flash the whole image is.
   */
  ghost predicate Safe(s: Unit, image: seq<Chunk>)
  {
    && |image| * CHUNK_SIZE <= FW_MAX_SIZE == |s.fw|
    && (s.rq ==> Upto(s.fw, image, Due(image, s.phase - 1)))
    && (s.rq && ((s.at.Waiting? && s.ack) || s.at.Taken?) ==> Upto(s.fw, image, Due(image, s.phase)))
    && (s.flashed ==> Upto(s.fw, image, |image|))
    && (!s.at.Idle? && s.at.request ==> s.phase == 0)
    && HandSafe(s, image)
  }

  /** What byte k of chunk d is once chunk c of the image is written. */
  lemma WriteByte(fw: seq<bv8>, image: seq<Chunk>, c: nat, d: nat, k: nat)
    requires |image| * CHUNK_SIZE <= FW_MAX_SIZE == |fw| && c < |image| && d < |image| && k < CHUNK_SIZE
    ensures Write(fw, c * CHUNK_SIZE, image[c])[d * CHUNK_SIZE + k] == if d == c then image[c][k] else fw[d * CHUNK_SIZE + k]
  {
    PutAt(fw, c * CHUNK_SIZE, image[c], d * CHUNK_SIZE + k);
  }

  /** Writing a chunk of the image writes that chunk and spoils no other; one that was missing stays missing. */
  lemma WriteOne(fw: seq<bv8>, image: seq<Chunk>, c: nat, d: nat)
    requires |image| * CHUNK_SIZE <= FW_MAX_SIZE == |fw| && c < |image| && d < |image|
    ensures Written(Write(fw, c * CHUNK_SIZE, image[c]), image, d) <==> d == c || Written(fw, image, d)
  {
    var g := Write(fw, c * CHUNK_SIZE, image[c]);
    forall k | 0 <= k < CHUNK_SIZE
      ensures g[d * CHUNK_SIZE + k] == image[d][k] <==> d == c || fw[d * CHUNK_SIZE + k] == image[d][k]
    {
      WriteByte(fw, image, c, d, k);
    }
  }

  lemma WriteKeeps(fw: seq<bv8>, image: seq<Chunk>, c: nat)
    requires |image| * CHUNK_SIZE <= FW_MAX_SIZE == |fw| && c < |image|
    ensures Written(Write(fw, c * CHUNK_SIZE, image[c]), image, c)
    ensures forall d :: 0 <= d < |image| && d != c ==>
              (Written(Write(fw, c * CHUNK_SIZE, image[c]), image, d) <==> Written(fw, image, d))
  {
    forall d | 0 <= d < |image|
      ensures Written(Write(fw, c * CHUNK_SIZE, image[c]), image, d) <==> d == c || Written(fw, image, d)
    {
      WriteOne(fw, image, c, d);
    }
  }

  /** A chunk answer that passes the tests is the one for the current chunk, whatever the u32 arithmetic. */
  lemma TakenChunkIsCurrent(cfg: Config, image: seq<Chunk>, s: Unit, p: Packet)
    requires |image| * CHUNK_SIZE <= FW_MAX_SIZE && s.phase < 0x8000_0000
    requires Genuine(image, p) && Tested(cfg, s, p).Writing?
    ensures s.phase == p.chunkId + 1 <= |image|
    ensures Tested(cfg, s, p) == Writing(s.phase, s.phase - 1, image[s.phase - 1], s.phase == |image|)
  {
  }

  lemma UptoKept(fw: seq<bv8>, image: seq<Chunk>, c: nat, k: int)
    requires |image| * CHUNK_SIZE <= FW_MAX_SIZE == |fw| && c < |image|
    ensures var g := Write(fw, c * CHUNK_SIZE, image[c]);
            Upto(fw, image, k) ==> Upto(g, image, k) && (c == k ==> Upto(g, image, k + 1))
  {
    WriteKeeps(fw, image, c);
  }

  lemma ArriveKeeps(cfg: Config, image: seq<Chunk>, s: Unit, p: Packet)
    requires Safe(s, image) && s.hand == Free && Genuine(image, p)
    ensures Safe(After(cfg, s, Arrive(p)), image)
  {
  }

  lemma WritingKeeps(image: seq<Chunk>, s: Unit)
    requires Safe(s, image) && s.hand.Writing?
    ensures Safe(Gone(s), image)
  {
    var c := s.hand.c;
    UptoKept(s.fw, image, c, Due(image, s.phase - 1));
    UptoKept(s.fw, image, c, Due(image, s.phase));
    UptoKept(s.fw, image, c, |image|);
    UptoKept(s.fw, image, c, c);
  }

  /** main_flash is called only with the whole image written. */
  lemma GoKeeps(image: seq<Chunk>, s: Unit)
    requires Safe(s, image) && !Harmful(s, image)
    ensures Safe(Gone(s), image)
    ensures Gone(s).flashed && !s.flashed ==> s.hand.Wrote? && Upto(s.fw, image, |image|)
  {
    if s.hand.Writing? {
      WritingKeeps(image, s);
    }
  }

  lemma RestartKeeps(cfg: Config, image: seq<Chunk>, s: Unit, configured: bool)
    requires Safe(s, image)
    ensures Safe(After(cfg, s, Restart(configured)), image)
  {
  }

  lemma SendKeeps(cfg: Config, image: seq<Chunk>, s: Unit, net: Net)
    requires Safe(s, image) && s.at == Idle
    ensures Safe(After(cfg, s, Send(net)), image)
  {
  }

  /** Taking, giving up and counting the phase leave the flash alone. */
  lemma WaitKeeps(cfg: Config, image: seq<Chunk>, s: Unit, a: Step)
    requires Safe(s, image) && Enabled(s, a) && a in {TakeAck, Timeout, Advance}
    ensures Safe(After(cfg, s, a), image)
  {
  }

  lemma SenderKeeps(cfg: Config, image: seq<Chunk>, s: Unit, a: Step)
    requires Safe(s, image) && Enabled(s, a) && !a.Arrive? && !a.Go?
    ensures Safe(After(cfg, s, a), image) && After(cfg, s, a).hand == s.hand
  {
    match a
    case Restart(configured) => RestartKeeps(cfg, image, s, configured);
    case Send(net) => SendKeeps(cfg, image, s, net);
    case _ => WaitKeeps(cfg, image, s, a);
  }

  lemma StepKeeps(cfg: Config, image: seq<Chunk>, s: Unit, a: Step)
    requires Safe(s, image) && Allowed(cfg, image, s, a) && !(a == Go && Harmful(s, image))
    ensures Safe(After(cfg, s, a), image)
  {
    match a
    case Arrive(p) => ArriveKeeps(cfg, image, s, p);
    case Go => GoKeeps(image, s);
    case _ => SenderKeeps(cfg, image, s, a);
  }

  /** A run of both tasks and a network that delivers what the server sent in any order, any number of times. */
  ghost predicate IsRun(cfg: Config, image: seq<Chunk>, s: Unit, acts: seq<Step>, t: Unit)
    decreases |acts|
  {
    if acts == [] then s == t
    else Allowed(cfg, image, s, acts[0]) && IsRun(cfg, image, After(cfg, s, acts[0]), acts[1..], t)
  }

  /** No acknowledge of the run is a harmful one. */
  ghost predicate Harmless(cfg: Config, image: seq<Chunk>, s: Unit, acts: seq<Step>)
    decreases |acts|
  {
    acts == [] || (!(acts[0] == Go && Harmful(s, image)) && Harmless(cfg, image, After(cfg, s, acts[0]), acts[1..]))
  }

  /**
   Over every interleaving of the two tasks and the network without a harmful acknowledge, late and
   repeated answers included: flashing finds the whole image.
   */
  lemma {:induction false} UpdateSafety(cfg: Config, image: seq<Chunk>, s: Unit, acts: seq<Step>, t: Unit)
    requires Safe(s, image) && IsRun(cfg, image, s, acts, t) && Harmless(cfg, image, s, acts)
    ensures Safe(t, image)
    ensures t.flashed ==> t.fw[..|image| * CHUNK_SIZE] == Flat(image)
    decreases |acts|
  {
    if acts != [] {
      StepKeeps(cfg, image, s, acts[0]);
      UpdateSafety(cfg, image, After(cfg, s, acts[0]), acts[1..], t);
    } else if t.flashed {
      WholeImage(t.fw, image, |image|);
    }
  }

  function Flat(image: seq<Chunk>): seq<bv8>
  {
    if image == [] then [] else Flat(image[..|image| - 1]) + image[|image| - 1]
  }

  lemma {:induction false} WholeImage(fw: seq<bv8>, image: seq<Chunk>, k: nat)
    requires k <= |image| && |image| * CHUNK_SIZE <= |fw| && Upto(fw, image, k)
    ensures fw[..k * CHUNK_SIZE] == Flat(image[..k])
    ensures k == |image| ==> image[..k] == image
  {
    if k > 0 {
      WholeImage(fw, image, k - 1);
      assert image[..k][..k - 1] == image[..k - 1];
      assert Written(fw, image, k - 1);
      assert fw[..k * CHUNK_SIZE] == fw[..(k - 1) * CHUNK_SIZE] + fw[(k - 1) * CHUNK_SIZE..k * CHUNK_SIZE];
    }
  }

  lemma FreshUnitIsSafe(fw: seq<bv8>, image: seq<Chunk>)
    requires |image| * CHUNK_SIZE <= FW_MAX_SIZE == |fw|
    ensures Safe(Unit(0, false, false, 0, fw, false, Idle, Free), image)
  {
  }

  /**
   Where a harmful acknowledge comes from: an answer to the update request, or a chunk answer that
   passed its tests in another phase than the one the sender now waits in.
   */
  lemma HarmComesLate(image: seq<Chunk>, s: Unit)
    requires Safe(s, image) && Harmful(s, image)
    ensures s.hand.chunk.Some? ==> s.hand.from != s.phase && s.hand.chunk.value != s.phase - 1
  {
  }

  // ---- no answer twice ----

  /** An answer to the update request for this unit while chunks are already being fetched. */
  predicate LateAnswer(cfg: Config, s: Unit, p: Packet)
  {
    && s.rq && s.phase > 0
    && p.port == cfg.port && p.unitId == cfg.unitId && p.packetId == 0xF0AA && p.len >= 8
  }

  /** The update is started anew. */
  predicate Begins(s: Unit, a: Step) { a.Restart? && a.configured && !s.rq }

  /**
   No answer to the request is late, in each phase of an update at most one answer passes the tests, and an update
   is started anew only with no handler under way.
   */
  ghost predicate Once(cfg: Config, s: Unit, acts: seq<Step>, answered: set<nat>)
    decreases |acts|
  {
    acts == [] ||
    (First(cfg, s, acts[0], answered)
     && Once(cfg, After(cfg, s, acts[0]), acts[1..], Answered(cfg, s, acts[0], answered)))
  }

  ghost predicate First(cfg: Config, s: Unit, a: Step, answered: set<nat>)
  {
    (a.Arrive? && Tested(cfg, s, a.p) != Free ==> !LateAnswer(cfg, s, a.p) && s.phase !in answered)
    && (Begins(s, a) ==> s.hand == Free)
  }

  /** An acknowledge is noted or taken. */
  predicate Acknowledged(s: Unit) { (s.at.Waiting? && s.ack) || s.at.Taken? }

  /** The phases answered; a new update starts without any, except that an acknowledge still noted counts for phase 0. */
  ghost function Answered(cfg: Config, s: Unit, a: Step, answered: set<nat>): set<nat>
  {
    if Begins(s, a) then (if Acknowledged(s) then {0} else {})
    else if a.Arrive? && Tested(cfg, s, a.p) != Free then answered + {s.phase} else answered
  }

  /** A handler under way belongs to the current phase, and that phase is not acknowledged yet. */
  ghost predicate Calm(s: Unit, answered: set<nat>)
  {
    && (forall f :: f in answered ==> f <= s.phase)
    && (s.hand != Free ==> s.hand.from == s.phase && s.phase in answered && !Acknowledged(s))
    && (Acknowledged(s) ==> s.phase in answered)
    && (s.hand.Refusing? || (s.hand.Noting? && s.hand.chunk == None) ==> s.phase == 0)
  }

  lemma CalmKeeps(cfg: Config, s: Unit, a: Step, answered: set<nat>)
    requires Calm(s, answered) && Enabled(s, a) && First(cfg, s, a, answered)
    ensures Calm(After(cfg, s, a), Answered(cfg, s, a, answered))
  {
  }

  lemma CalmIsHarmless(image: seq<Chunk>, s: Unit, answered: set<nat>)
    requires Safe(s, image) && Calm(s, answered)
    ensures !Harmful(s, image)
  {
    if Harmful(s, image) {
      HarmComesLate(image, s);
    }
  }

  /** When no answer passes the tests twice, and none to the request late, no acknowledge is harmful. */
  lemma {:induction false} OnceIsHarmless(cfg: Config, image: seq<Chunk>, s: Unit, acts: seq<Step>, t: Unit, answered: set<nat>)
    requires Safe(s, image) && Calm(s, answered) && IsRun(cfg, image, s, acts, t) && Once(cfg, s, acts, answered)
    ensures Harmless(cfg, image, s, acts)
    decreases |acts|
  {
    if acts != [] {
      CalmIsHarmless(image, s, answered);
      StepKeeps(cfg, image, s, acts[0]);
      CalmKeeps(cfg, s, acts[0], answered);
      OnceIsHarmless(cfg, image, After(cfg, s, acts[0]), acts[1..], t, Answered(cfg, s, acts[0], answered));
    }
  }

  // ---- what a harmful acknowledge does ----

  /** The packets that arrive in a step and after it. */
  function Came(a: Step, after: seq<Packet>): seq<Packet> { if a.Arrive? then [a.p] + after else after }

  /** The packets that arrive in a run, in order. */
  function Arrivals(acts: seq<Step>): seq<Packet>
  {
    if acts == [] then [] else Came(acts[0], Arrivals(acts[1..]))
  }

  lemma {:induction false} ArrivalsOfParts(a: seq<Step>, b: seq<Step>)
    ensures Arrivals(a + b) == Arrivals(a) + Arrivals(b)
  {
    if a == [] {
      assert a + b == b;
    } else {
      assert (a + b)[1..] == a[1..] + b;
      ArrivalsOfParts(a[1..], b);
    }
  }

  /** The server's answers for the chunks from a to b, each once. */
  function Answers(cfg: Config, image: seq<Chunk>, a: nat, b: nat): seq<Packet>
    requires b <= |image|
    decreases b - a
  {
    if a >= b then [] else [Answer(cfg, image, a)] + Answers(cfg, image, a + 1, b)
  }

  lemma {:induction false} AnswersMore(cfg: Config, image: seq<Chunk>, a: nat, b: nat)
    requires a <= b < |image|
    ensures Answers(cfg, image, a, b + 1) == Answers(cfg, image, a, b) + [Answer(cfg, image, b)]
    decreases b - a
  {
    if a < b {
      AnswersMore(cfg, image, a + 1, b);
    }
  }

  /** The server's answer for chunk c. */
  function Answer(cfg: Config, image: seq<Chunk>, c: nat): (p: Packet)
    requires c < |image|
    ensures Genuine(image, p)
  {
    Packet(cfg.port, CHUNK_RES_LEN, cfg.unitId, ID_CHUNK_RES, 0, c,
           if c == |image| - 1 then STATUS_DONE else STATUS_OK, image[c])
  }

  /** Between two chunks: nothing noted, nothing under way. */
  predicate Fetching(s: Unit, image: seq<Chunk>)
  {
    && |image| * CHUNK_SIZE <= FW_MAX_SIZE == |s.fw|
    && s.rq && s.err < ERR_LIMIT && s.at == Idle && s.hand == Free && 0 < s.phase <= |image|
  }

  /** The state once chunk phase - 1 is asked for, answered and written. */
  function Fetched(s: Unit, image: seq<Chunk>): Unit
    requires Fetching(s, image)
  {
    s.(fw := Write(s.fw, (s.phase - 1) * CHUNK_SIZE, image[s.phase - 1]), ack := false, at := Waiting(false),
       hand := Wrote(s.phase, s.phase - 1, s.phase == |image|))
  }

  predicate Harmed(image: seq<Chunk>, s: Unit, a: Step) { a == Go && Harmful(s, image) }

  /** One more step in front that does no harm. */
  lemma One(cfg: Config, image: seq<Chunk>, s: Unit, a: Step, acts: seq<Step>, t: Unit) returns (more: seq<Step>)
    requires Allowed(cfg, image, s, a) && !Harmed(image, s, a)
    requires IsRun(cfg, image, After(cfg, s, a), acts, t) && Harmless(cfg, image, After(cfg, s, a), acts)
    ensures IsRun(cfg, image, s, more, t) && Harmless(cfg, image, s, more)
    ensures Arrivals(more) == Came(a, Arrivals(acts))
  {
    more := [a] + acts;
    assert more[1..] == acts;
  }

  lemma Two(cfg: Config, image: seq<Chunk>, s: Unit, a: Step, b: Step, acts: seq<Step>, t: Unit)
    returns (more: seq<Step>)
    requires Allowed(cfg, image, s, a) && Allowed(cfg, image, After(cfg, s, a), b)
    requires !Harmed(image, s, a) && !Harmed(image, After(cfg, s, a), b)
    requires IsRun(cfg, image, After(cfg, After(cfg, s, a), b), acts, t)
    requires Harmless(cfg, image, After(cfg, After(cfg, s, a), b), acts)
    ensures IsRun(cfg, image, s, more, t) && Harmless(cfg, image, s, more)
    ensures Arrivals(more) == Came(a, Came(b, Arrivals(acts)))
  {
    more := One(cfg, image, After(cfg, s, a), b, acts, t);
    more := One(cfg, image, s, a, more, t);
  }

  /** The chunk's answer has passed its tests. */
  function Asked(s: Unit, image: seq<Chunk>): Unit
    requires Fetching(s, image)
  {
    s.(ack := false, at := Waiting(false),
       hand := Writing(s.phase, s.phase - 1, image[s.phase - 1], s.phase == |image|))
  }

  lemma AskAndAnswer(cfg: Config, image: seq<Chunk>, s: Unit)
    requires Fetching(s, image)
    ensures Allowed(cfg, image, s, Send(Up))
    ensures var m := After(cfg, s, Send(Up));
            && Allowed(cfg, image, m, Arrive(Answer(cfg, image, s.phase - 1)))
            && After(cfg, m, Arrive(Answer(cfg, image, s.phase - 1))) == Asked(s, image)
  {
  }

  /** A chunk is asked for, answered and written. */
  lemma FetchOne(cfg: Config, image: seq<Chunk>, s: Unit, acts: seq<Step>, t: Unit) returns (more: seq<Step>)
    requires Fetching(s, image)
    requires IsRun(cfg, image, After(cfg, Fetched(s, image), Go), acts, t)
    requires Harmless(cfg, image, After(cfg, Fetched(s, image), Go), acts)
    ensures IsRun(cfg, image, s, more, t) && Harmless(cfg, image, s, more)
    ensures Arrivals(more) == [Answer(cfg, image, s.phase - 1)] + Arrivals(acts)
  {
    var p, m := Answer(cfg, image, s.phase - 1), Asked(s, image);
    AskAndAnswer(cfg, image, s);
    assert After(cfg, m, Go) == Fetched(s, image);
    more := Two(cfg, image, m, Go, Go, acts, t);
    more := Two(cfg, image, s, Send(Up), Arrive(p), more, t);
  }

  lemma {:induction false} RunsJoin(cfg: Config, image: seq<Chunk>, s: Unit, a: seq<Step>, m: Unit, b: seq<Step>, t: Unit)
    requires IsRun(cfg, image, s, a, m) && IsRun(cfg, image, m, b, t)
    ensures IsRun(cfg, image, s, a + b, t)
    decreases |a|
  {
    if a == [] {
      assert a + b == b;
    } else {
      assert (a + b)[0] == a[0] && (a + b)[1..] == a[1..] + b;
      RunsJoin(cfg, image, After(cfg, s, a[0]), a[1..], m, b, t);
    }
  }

  lemma {:induction false} HarmlessJoin(cfg: Config, image: seq<Chunk>, s: Unit, a: seq<Step>, m: Unit, b: seq<Step>)
    requires IsRun(cfg, image, s, a, m) && Harmless(cfg, image, s, a) && Harmless(cfg, image, m, b)
    ensures Harmless(cfg, image, s, a + b)
    decreases |a|
  {
    if a == [] {
      assert a + b == b;
    } else {
      assert (a + b)[0] == a[0] && (a + b)[1..] == a[1..] + b;
      HarmlessJoin(cfg, image, After(cfg, s, a[0]), a[1..], m, b);
    }
  }

  lemma Concat(cfg: Config, image: seq<Chunk>, s: Unit, a: seq<Step>, m: Unit, b: seq<Step>, t: Unit)
    returns (both: seq<Step>)
    requires IsRun(cfg, image, s, a, m) && Harmless(cfg, image, s, a)
    requires IsRun(cfg, image, m, b, t) && Harmless(cfg, image, m, b)
    ensures IsRun(cfg, image, s, both, t) && Harmless(cfg, image, s, both)
    ensures Arrivals(both) == Arrivals(a) + Arrivals(b)
  {
    both := a + b;
    RunsJoin(cfg, image, s, a, m, b, t);
    HarmlessJoin(cfg, image, s, a, m, b);
    ArrivalsOfParts(a, b);
  }

  /** The state once chunk phase - 1 is fetched and the sender has counted it. */
  function Counted(s: Unit, image: seq<Chunk>): Unit
    requires Fetching(s, image)
  {
    s.(fw := Fetched(s, image).fw, phase := s.phase + 1, ack := false, err := 0)
  }

  /** The state with its answer acknowledged and the sender still polling. */
  function Acked(s: Unit, image: seq<Chunk>): Unit
    requires Fetching(s, image)
  {
    s.(fw := Fetched(s, image).fw, ack := true, at := Waiting(false))
  }

  lemma Acknowledge(cfg: Config, image: seq<Chunk>, s: Unit)
    requires Fetching(s, image) && s.phase < |image|
    ensures var m := After(cfg, Fetched(s, image), Go);
            Allowed(cfg, image, m, Go) && !Harmed(image, m, Go) && After(cfg, m, Go) == Acked(s, image)
  {
    WriteOne(s.fw, image, s.phase - 1, s.phase - 1);
  }

  lemma Count(cfg: Config, image: seq<Chunk>, s: Unit)
    requires Fetching(s, image)
    ensures var n := After(cfg, Acked(s, image), TakeAck);
            && Allowed(cfg, image, Acked(s, image), TakeAck) && Allowed(cfg, image, n, Advance)
            && After(cfg, n, Advance) == Counted(s, image)
  {
  }

  /** A chunk that is not the last is fetched and the next one is its turn. */
  lemma FetchNext(cfg: Config, image: seq<Chunk>, s: Unit) returns (acts: seq<Step>, t: Unit)
    requires Fetching(s, image) && s.phase < |image|
    ensures IsRun(cfg, image, s, acts, t) && Harmless(cfg, image, s, acts)
    ensures Arrivals(acts) == [Answer(cfg, image, s.phase - 1)]
    ensures Fetching(t, image) && t == Counted(s, image)
  {
    t := Counted(s, image);
    Count(cfg, image, s);
    acts := Two(cfg, image, Acked(s, image), TakeAck, Advance, [], t);
    Acknowledge(cfg, image, s);
    acts := One(cfg, image, After(cfg, Fetched(s, image), Go), Go, acts, t);
    acts := FetchOne(cfg, image, s, acts, t);
  }

  /** From there on every chunk is fetched once, and the last answer flashes; missing chunks stay missing. */
  lemma {:induction false} FetchRest(cfg: Config, image: seq<Chunk>, s: Unit, c: nat) returns (acts: seq<Step>, t: Unit)
    requires Fetching(s, image) && c < s.phase - 1 && !Written(s.fw, image, c)
    ensures IsRun(cfg, image, s, acts, t) && Harmless(cfg, image, s, acts)
    ensures Arrivals(acts) == Answers(cfg, image, s.phase - 1, |image|)
    ensures t.flashed && |t.fw| == |s.fw| && !Written(t.fw, image, c)
    decreases |image| - s.phase
  {
    WriteOne(s.fw, image, s.phase - 1, c);
    if s.phase == |image| {
      t := After(cfg, Fetched(s, image), Go);
      acts := FetchOne(cfg, image, s, [], t);
    } else {
      var first, m := FetchNext(cfg, image, s);
      acts, t := FetchRest(cfg, image, m, c);
      acts := Concat(cfg, image, s, first, m, acts, t);
    }
  }

  /** A run after this acknowledge, with no harmful one in it, that flashes an incomplete image. */
  ghost predicate Loses(cfg: Config, image: seq<Chunk>, s: Unit, acts: seq<Step>, t: Unit)
  {
    IsRun(cfg, image, Gone(s), acts, t) && Harmless(cfg, image, Gone(s), acts)
    && t.flashed && |t.fw| == FW_MAX_SIZE && !Upto(t.fw, image, |image|)
  }

  /** Such a run: every chunk behind the one missing is answered once. */
  lemma HarmLoses(cfg: Config, image: seq<Chunk>, s: Unit) returns (acts: seq<Step>, t: Unit)
    requires Safe(s, image) && Harmful(s, image)
    ensures Loses(cfg, image, s, acts, t) && !Written(t.fw, image, s.phase - 1)
    ensures Arrivals(acts) == Answers(cfg, image, s.phase, |image|)
  {
    var a := Gone(s);
    var b := After(cfg, a, TakeAck);
    acts, t := FetchRest(cfg, image, After(cfg, b, Advance), s.phase - 1);
    acts := Two(cfg, image, a, TakeAck, Advance, acts, t);
  }

  /**
   An acknowledge is about to be set. Some continuation, in which no other is harmful, flashes an incomplete
   image if and only if this one is harmful.
   */
  lemma {:induction false} HarmExact(cfg: Config, image: seq<Chunk>, s: Unit)
    requires Safe(s, image) && s.hand.Noting?
    ensures Harmful(s, image) <==> exists acts, t :: Loses(cfg, image, s, acts, t)
  {
    if Harmful(s, image) {
      var acts, t := HarmLoses(cfg, image, s);
    } else {
      GoKeeps(image, s);
      forall acts, t ensures !Loses(cfg, image, s, acts, t) {
        if IsRun(cfg, image, Gone(s), acts, t) && Harmless(cfg, image, Gone(s), acts) {
          UpdateSafety(cfg, image, Gone(s), acts, t);
        }
      }
    }
  }

  /**
   The same for a late answer to the update request: acknowledged at once, it can lose a chunk if and only if
   the sender waits for one, not the last, that is not written.
   */
  lemma LateAnswerExact(cfg: Config, image: seq<Chunk>, s: Unit, p: Packet)
    requires Safe(s, image) && s.hand == Free && LateAnswer(cfg, s, p)
    ensures s.at.Waiting? && s.phase < |image| && !Written(s.fw, image, s.phase - 1)
            <==> exists acts, t :: Loses(cfg, image, After(cfg, s, Arrive(p)), acts, t)
  {
    ArriveKeeps(cfg, image, s, p);
    HarmExact(cfg, image, After(cfg, s, Arrive(p)));
  }

  // ---- runs from a fresh unit ----

  /** The server's answer to the update request. */
  function StartAnswer(cfg: Config): Packet
  {
    Packet(cfg.port, UPDATE_RES_LEN, cfg.unitId, ID_UPDATE_RES, RESULT_START, 0, 0, seq(CHUNK_SIZE, _ => 0))
  }

  function Fresh(fw: seq<bv8>): Unit { Unit(0, false, false, 0, fw, false, Idle, Free) }

  /** The update is started and its request answered. */
  lemma Started(cfg: Config, image: seq<Chunk>, fw: seq<bv8>) returns (acts: seq<Step>, t: Unit)
    requires |image| > 0 && |image| * CHUNK_SIZE <= FW_MAX_SIZE == |fw|
    ensures IsRun(cfg, image, Fresh(fw), acts, t) && Harmless(cfg, image, Fresh(fw), acts)
    ensures Fetching(t, image) && t.phase == 1 && t.fw == fw && !t.flashed && Arrivals(acts) == [StartAnswer(cfg)]
  {
    var a := After(cfg, After(cfg, Fresh(fw), Restart(true)), Send(Up));
    var b := After(cfg, After(cfg, a, Arrive(StartAnswer(cfg))), Go);
    t := After(cfg, After(cfg, b, TakeAck), Advance);
    acts := Two(cfg, image, b, TakeAck, Advance, [], t);
    acts := Two(cfg, image, a, Arrive(StartAnswer(cfg)), Go, acts, t);
    acts := Two(cfg, image, Fresh(fw), Restart(true), Send(Up), acts, t);
  }

  /** The chunks from k on are as they were. */
  ghost predicate Untouched(fw: seq<bv8>, g: seq<bv8>, image: seq<Chunk>, k: nat)
  {
    forall d :: k <= d < |image| ==> (Written(g, image, d) <==> Written(fw, image, d))
  }

  lemma FetchTouches(image: seq<Chunk>, s: Unit, fw: seq<bv8>)
    requires Fetching(s, image) && Untouched(fw, s.fw, image, s.phase - 1)
    ensures Untouched(fw, Fetched(s, image).fw, image, s.phase)
  {
    WriteKeeps(s.fw, image, s.phase - 1);
  }

  /** Every chunk comes to its turn; those from there on are untouched. */
  lemma {:induction false} TurnComes(cfg: Config, image: seq<Chunk>, fw: seq<bv8>, c: nat) returns (acts: seq<Step>, t: Unit)
    requires c < |image| && |image| * CHUNK_SIZE <= FW_MAX_SIZE == |fw|
    ensures IsRun(cfg, image, Fresh(fw), acts, t) && Harmless(cfg, image, Fresh(fw), acts)
    ensures Fetching(t, image) && t.phase == c + 1 && !t.flashed
    ensures Arrivals(acts) == [StartAnswer(cfg)] + Answers(cfg, image, 0, c)
    ensures Untouched(fw, t.fw, image, c)
    decreases c
  {
    if c == 0 {
      acts, t := Started(cfg, image, fw);
    } else {
      var s, more;
      acts, s := TurnComes(cfg, image, fw, c - 1);
      FetchTouches(image, s, fw);
      AnswersMore(cfg, image, 0, c - 1);
      more, t := FetchNext(cfg, image, s);
      acts := Concat(cfg, image, Fresh(fw), acts, s, more, t);
    }
  }

  /** The first copy is acknowledged; the second passes its tests before the sender takes that. */
  lemma SecondCopy(cfg: Config, image: seq<Chunk>, s: Unit) returns (acts: seq<Step>, t: Unit)
    requires Fetching(s, image) && s.phase < |image|
    ensures IsRun(cfg, image, Acked(s, image), acts, t) && Harmless(cfg, image, Acked(s, image), acts)
    ensures Arrivals(acts) == [Answer(cfg, image, s.phase - 1)]
    ensures t == s.(fw := Write(Fetched(s, image).fw, (s.phase - 1) * CHUNK_SIZE, image[s.phase - 1]), ack := false,
                    hand := Noting(s.phase, Some(s.phase - 1)), phase := s.phase + 1, err := 0, at := Waiting(false))
  {
    var p, m := Answer(cfg, image, s.phase - 1), Acked(s, image);
    var n := After(cfg, After(cfg, m, Arrive(p)), Go);
    acts, t := MovesOn(cfg, image, n);
    acts := Two(cfg, image, m, Arrive(p), Go, acts, t);
  }

  /** Writing a chunk twice does not write another one. */
  lemma StillMissing(fw: seq<bv8>, image: seq<Chunk>, c: nat, d: nat)
    requires |image| * CHUNK_SIZE <= FW_MAX_SIZE == |fw| && c < |image| && d < |image| && d != c
    requires !Written(fw, image, d)
    ensures !Written(Write(Write(fw, c * CHUNK_SIZE, image[c]), c * CHUNK_SIZE, image[c]), image, d)
  {
    WriteOne(fw, image, c, d);
    WriteOne(Write(fw, c * CHUNK_SIZE, image[c]), image, c, d);
  }

  /**
   An answer that comes twice: the second copy passes its tests before the sender takes the first, and
   acknowledges the next chunk, which is not written.
   */
  lemma TwiceHarms(cfg: Config, image: seq<Chunk>, s: Unit) returns (acts: seq<Step>, t: Unit)
    requires Fetching(s, image) && s.phase + 1 < |image| && !Written(s.fw, image, s.phase)
    ensures IsRun(cfg, image, s, acts, t) && Harmless(cfg, image, s, acts) && Harmful(t, image)
    ensures Arrivals(acts) == [Answer(cfg, image, s.phase - 1), Answer(cfg, image, s.phase - 1)]
    ensures t.phase == s.phase + 1 && t.hand == Noting(s.phase, Some(s.phase - 1)) && t.flashed == s.flashed
  {
    acts, t := SecondCopy(cfg, image, s);
    StillMissing(s.fw, image, s.phase - 1, s.phase);
    Acknowledge(cfg, image, s);
    acts := One(cfg, image, After(cfg, Fetched(s, image), Go), Go, acts, t);
    acts := FetchOne(cfg, image, s, acts, t);
  }

  /** The sender takes the acknowledge and asks for the next chunk while the handler has still to acknowledge. */
  lemma MovesOn(cfg: Config, image: seq<Chunk>, n: Unit) returns (acts: seq<Step>, t: Unit)
    requires n.hand.Wrote? && !n.hand.last && n.rq && n.at == Waiting(false) && n.ack && 0 < n.phase
    ensures IsRun(cfg, image, n, acts, t) && Harmless(cfg, image, n, acts) && Arrivals(acts) == []
    ensures t == n.(hand := Noting(n.hand.from, Some(n.hand.c)), phase := n.phase + 1, err := 0,
                    ack := false, at := Waiting(false))
  {
    var a := After(cfg, After(cfg, n, TakeAck), Advance);
    t := After(cfg, After(cfg, a, Send(Up)), Go);
    acts := Two(cfg, image, a, Send(Up), Go, [], t);
    acts := Two(cfg, image, n, TakeAck, Advance, acts, t);
  }

  /**
   From a fresh unit, with chunk c answered twice, the request and every other chunk once, and the next chunk
   never: flashed with that chunk missing.
   */
  lemma DuplicateLosesChunk(cfg: Config, image: seq<Chunk>, fw: seq<bv8>, c: nat)
    returns (acts: seq<Step>, m: Unit, more: seq<Step>, t: Unit)
    requires c + 2 < |image| && |image| * CHUNK_SIZE <= FW_MAX_SIZE == |fw| && !Written(fw, image, c + 1)
    ensures IsRun(cfg, image, Fresh(fw), acts, m) && Harmless(cfg, image, Fresh(fw), acts)
    ensures m.hand == Noting(c + 1, Some(c)) && m.phase == c + 2 && !m.flashed
    ensures Loses(cfg, image, m, more, t) && !Written(t.fw, image, c + 1)
    ensures Arrivals(acts) == [StartAnswer(cfg)] + Answers(cfg, image, 0, c) + [Answer(cfg, image, c), Answer(cfg, image, c)]
    ensures Arrivals(more) == Answers(cfg, image, c + 2, |image|)
  {
    var s, last;
    acts, s := TurnComes(cfg, image, fw, c);
    last, m := TwiceHarms(cfg, image, s);
    acts := Concat(cfg, image, Fresh(fw), acts, s, last, m);
    FreshUnitIsSafe(fw, image);
    UpdateSafety(cfg, image, Fresh(fw), acts, m);
    more, t := HarmLoses(cfg, image, m);
  }

  /** From a fresh unit, with a late answer to the request while chunk c is awaited: flashed with a chunk missing. */
  lemma LateAnswerLosesChunk(cfg: Config, image: seq<Chunk>, fw: seq<bv8>, c: nat)
    returns (acts: seq<Step>, m: Unit, more: seq<Step>, t: Unit)
    requires c + 1 < |image| && |image| * CHUNK_SIZE <= FW_MAX_SIZE == |fw| && !Written(fw, image, c)
    ensures IsRun(cfg, image, Fresh(fw), acts, m) && Harmless(cfg, image, Fresh(fw), acts)
    ensures m.phase == c + 1 && !m.flashed && LateAnswer(cfg, m, StartAnswer(cfg))
    ensures Loses(cfg, image, After(cfg, m, Arrive(StartAnswer(cfg))), more, t) && !Written(t.fw, image, c)
    ensures Arrivals(acts) == [StartAnswer(cfg)] + Answers(cfg, image, 0, c)
    ensures Arrivals(more) == Answers(cfg, image, c + 1, |image|)
  {
    var s;
    acts, s := TurnComes(cfg, image, fw, c);
    m := After(cfg, s, Send(Up));
    var asked := One(cfg, image, s, Send(Up), [], m);
    acts := Concat(cfg, image, Fresh(fw), acts, s, asked, m);
    FreshUnitIsSafe(fw, image);
    UpdateSafety(cfg, image, Fresh(fw), acts, m);
    ArriveKeeps(cfg, image, m, StartAnswer(cfg));
    more, t := HarmLoses(cfg, image, After(cfg, m, Arrive(StartAnswer(cfg))));
  }

  // ---- what the answer to the request decides ----

  /** An answer to the request, whatever it says, long enough to say it. */
  predicate AnswersRequest(cfg: Config, p: Packet)
  {
    p.port == cfg.port && p.unitId == cfg.unitId && p.packetId == 0xF0AA && p.len >= 16
  }

  /** No datagram comes and no update is started. */
  predicate Quiet(acts: seq<Step>) { forall a :: a in acts ==> !a.Arrive? && a != Restart(true) }

  /** The sender gives the update up in this run. */
  predicate GivesUp(cfg: Config, s: Unit, acts: seq<Step>)
    decreases |acts|
  {
    acts != [] && ((acts[0].Send? && s.rq && s.err >= 100) || GivesUp(cfg, After(cfg, s, acts[0]), acts[1..]))
  }

  /** A handler that has no chunk goes to its end while the sender goes on. */
  lemma {:induction false} HandlerEnds(cfg: Config, image: seq<Chunk>, s: Unit, acts: seq<Step>, t: Unit)
    requires s.hand.Free? || s.hand.Refusing? || (s.hand.Noting? && s.hand.chunk == None)
    requires Quiet(acts) && IsRun(cfg, image, s, acts, t) && t.hand == Free
    ensures t.rq <==> s.rq && !s.hand.Refusing? && !GivesUp(cfg, s, acts)
    decreases |acts|
  {
    if acts != [] {
      assert acts[0] in acts;
      HandlerEnds(cfg, image, After(cfg, s, acts[0]), acts[1..], t);
    }
  }

  /**
   From a started update that waits for the answer to its request, over every run in which that answer comes and
   its handler ends while the sender goes on: the update goes on if and only if the answer says 0xFF and the sender
   does not give up.
   */
  lemma AnswerDecides(cfg: Config, image: seq<Chunk>, s: Unit, p: Packet, acts: seq<Step>, t: Unit)
    requires s.rq && s.phase == 0 && s.hand == Free && AnswersRequest(cfg, p)
    requires acts != [] && acts[0] == Arrive(p) && Quiet(acts[1..])
    requires IsRun(cfg, image, s, acts, t) && t.hand == Free
    ensures t.rq <==> p.result == 0xFF && !GivesUp(cfg, s, acts)
  {
    HandlerEnds(cfg, image, After(cfg, s, Arrive(p)), acts[1..], t);
  }

  /** There is such a run; uninterrupted it acknowledges the answer, and so does the handler called as one. */
  lemma AnswerHandled(cfg: Config, image: seq<Chunk>, s: Unit, p: Packet) returns (acts: seq<Step>, t: Unit)
    requires s.rq && s.phase == 0 && s.hand == Free && AnswersRequest(cfg, p)
    ensures acts != [] && acts[0] == Arrive(p) && Quiet(acts[1..]) && !GivesUp(cfg, s, acts)
    ensures IsRun(cfg, image, s, acts, t) && t == s.(ack := true, rq := p.result == 0xFF)
    ensures Rx(cfg, s, p) == (t, true)
  {
    var a := After(cfg, s, Arrive(p));
    if p.result == 0xFF {
      t := Gone(a);
      acts := [Arrive(p), Go];
      assert acts[1..] == [Go] && [Go][1..] == [];
    } else {
      t := Gone(Gone(a));
      acts := [Arrive(p), Go, Go];
      assert acts[1..] == [Go, Go] && [Go, Go][1..] == [Go] && [Go][1..] == [];
    }
    RxAlone(cfg, s, p);
  }

  /** The sender starts to wait for an answer in this run. */
  predicate Asks(cfg: Config, s: Unit, acts: seq<Step>)
    decreases |acts|
  {
    acts != []
    && ((acts[0].Send? && After(cfg, s, acts[0]).at.Waiting?) || Asks(cfg, After(cfg, s, acts[0]), acts[1..]))
  }

  /** Without an update started, no run asks the server for anything. */
  lemma {:induction false} NoneWithoutRequest(cfg: Config, image: seq<Chunk>, s: Unit, acts: seq<Step>, t: Unit)
    requires !s.rq && IsRun(cfg, image, s, acts, t) && Restart(true) !in acts
    ensures !t.rq && !Asks(cfg, s, acts) && (t.at.Waiting? ==> s.at.Waiting?)
    decreases |acts|
  {
    if acts != [] {
      assert acts[0] in acts && acts[0] != Restart(true);
      NoneWithoutRequest(cfg, image, After(cfg, s, acts[0]), acts[1..], t);
    }
  }

  /** Refused: whatever comes after the answer, up to the next start nothing is asked for and nothing waited for. */
  lemma RefusedAsksNothing(cfg: Config, image: seq<Chunk>, s: Unit, p: Packet, acts: seq<Step>, t: Unit,
                           more: seq<Step>, u: Unit)
    requires s.rq && s.phase == 0 && s.hand == Free && AnswersRequest(cfg, p) && p.result != 0xFF
    requires acts != [] && acts[0] == Arrive(p) && Quiet(acts[1..])
    requires IsRun(cfg, image, s, acts, t) && t.hand == Free
    requires IsRun(cfg, image, t, more, u) && Restart(true) !in more
    ensures !u.rq && !Asks(cfg, t, more) && (u.at.Waiting? ==> t.at.Waiting?)
  {
    AnswerDecides(cfg, image, s, p, acts, t);
    NoneWithoutRequest(cfg, image, t, more, u);
  }

  // ---- when the sender gives up ----

  /** The state after turns of the sender that find the network like this, and no answer to what they send. */
  function Unanswered(cfg: Config, s: Unit, nets: seq<Net>): Unit
    decreases |nets|
  {
    if nets == [] then s
    else
      var t, net := Unanswered(cfg, s, nets[..|nets| - 1]), nets[|nets| - 1];
      if !t.rq then t
      else if net == Up then After(cfg, After(cfg, t, Send(Up)), Timeout) else After(cfg, t, Send(net))
  }

  /** The turns that count as errors: without a network connection none does. */
  function Failures(nets: seq<Net>): nat
  {
    if nets == [] then 0 else Failures(nets[..|nets| - 1]) + if nets[|nets| - 1] == Down then 0 else 1
  }

  /** The update is given up in the first turn that begins with 100 errors. */
  lemma {:induction false} UnansweredTurns(cfg: Config, s: Unit, nets: seq<Net>)
    requires s.rq && s.at == Idle
    ensures var t := Unanswered(cfg, s, nets);
            && t.at == Idle && t.phase == s.phase && t.hand == s.hand
            && (t.rq <==> nets == [] || s.err + Failures(nets[..|nets| - 1]) < 100)
            && (t.rq ==> t.err == s.err + Failures(nets))
  {
    if nets != [] {
      var front := nets[..|nets| - 1];
      UnansweredTurns(cfg, s, front);
      if front != [] { Borne(front); }
    }
  }

  /** The request is sent, answered and the answer taken. */
  function RequestTurn(cfg: Config, s: Unit): Unit
  {
    var a := After(cfg, After(cfg, s, Send(Up)), Arrive(StartAnswer(cfg)));
    After(cfg, After(cfg, After(cfg, a, Go), TakeAck), Advance)
  }

  /** A chunk is asked for, its answer written, acknowledged and taken. */
  function ChunkTurn(cfg: Config, s: Unit, p: Packet): Unit
  {
    var a := After(cfg, After(cfg, s, Send(Up)), Arrive(p));
    After(cfg, After(cfg, After(cfg, After(cfg, After(cfg, a, Go), Go), Go), TakeAck), Advance)
  }

  lemma RequestTurnIs(cfg: Config, s: Unit)
    requires s.rq && s.at == Idle && s.hand == Free && s.phase == 0 && s.err < 100
    ensures RequestTurn(cfg, s) == s.(phase := 1, ack := false)
  {
  }

  lemma ChunkTurnIs(cfg: Config, image: seq<Chunk>, s: Unit)
    requires s.rq && s.at == Idle && s.hand == Free && s.phase == 1 && s.err < 100 && |image| > 1
    ensures var t := ChunkTurn(cfg, s, Answer(cfg, image, 0));
            t == s.(phase := 2, ack := false, err := 0, fw := Write(s.fw, 0, image[0]))
  {
  }

  /**
   A hundred failed turns are borne and the next turn gives up; a turn without a network connection fails nothing. The
   turns before the request's answer count together with those for the first chunk; a fetched chunk, and a start,
   begin the count anew.
   */
  lemma GivesUpExact(cfg: Config, image: seq<Chunk>, s: Unit, i: seq<Net>, j: seq<Net>, k: seq<Net>)
    requires !s.rq && s.at == Idle && s.hand == Free && |image| > 1 && Failures(i) + Failures(j) < 100
    ensures var a := Unanswered(cfg, RequestTurn(cfg, Unanswered(cfg, After(cfg, s, Restart(true)), i)), j);
            var b := Unanswered(cfg, ChunkTurn(cfg, a, Answer(cfg, image, 0)), k);
            && a.rq && a.phase == 1 && a.err == Failures(i) + Failures(j)
            && b.phase == 2 && (b.rq <==> k == [] || Failures(k[..|k| - 1]) < 100)
  {
    var r := After(cfg, s, Restart(true));
    if i != [] { Borne(i); }
    if j != [] { Borne(j); }
    UnansweredTurns(cfg, r, i);
    var m := RequestTurn(cfg, Unanswered(cfg, r, i));
    RequestTurnIs(cfg, Unanswered(cfg, r, i));
    UnansweredTurns(cfg, m, j);
    ChunkTurnIs(cfg, image, Unanswered(cfg, m, j));
    UnansweredTurns(cfg, ChunkTurn(cfg, Unanswered(cfg, m, j), Answer(cfg, image, 0)), k);
  }

  lemma Borne(nets: seq<Net>)
    requires nets != []
    ensures Failures(nets[..|nets| - 1]) <= Failures(nets)
  {
  }
}
