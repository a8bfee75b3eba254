/** The Richards scheduler over linked packets refines the abstract machine step for step. */
module Richards {
  import opened Options
  import opened RichardsEnds
  import opened RichardsLaws
  import opened RichardsLinks
  import opened RichardsMachine
  import opened RichardsPriority
  import opened Words

  class Scheduler {
    var packets: seq<Packet>
    var tasks: seq<Tcb>
    var table: seq<Option<nat>>
    var taskList: Option<nat>
    var currentTask: Option<nat>
    var currentTaskIdentity: nat
    var queuePacketCount: nat
    var holdCount: nat

    constructor ()
      ensures packets == [] && tasks == [] && table == seq(NUM_TYPES, _ => None)
      ensures taskList == None && currentTask == None && queuePacketCount == 0 && holdCount == 0
    {
      packets, tasks, table := [], [], seq(NUM_TYPES, _ => None);
      taskList, currentTask, currentTaskIdentity, queuePacketCount, holdCount := None, None, 0, 0, 0;
    }

    /** The arena, the control blocks and the counters stand for machine m; who runs next is apart. */
    ghost predicate Stands(m: Machine)
      reads this
    {
      && Rep(packets, tasks, m) && |table| == NUM_TYPES == |m.table|
      && (forall d: nat :: d < NUM_TYPES ==> table[d] == Some(m.table[d]))
      && currentTaskIdentity == m.currentIdentity && queuePacketCount == m.queued && holdCount == m.held
    }

    /** Walk to the end of the list headed by queueHead and link packet there. */
    method Append(packet: nat, queueHead: Option<nat>, ghost l: seq<nat>) returns (head: Option<nat>)
      requires Linked(packets, queueHead, l) && packet < |packets| && packet !in l && Apart(l)
      modifies `packets
      ensures (l != [] ==> l[|l| - 1] < |old(packets)|) && packets == Appended(old(packets), l, packet)
      ensures Linked(packets, head, l + [packet]) && head == if l == [] then Some(packet) else queueHead
    {
      hide Linked;
      ghost var packets0 := packets;
      AppendedLinked(packets0, queueHead, l, packet);
      LinkedHead(packets0, queueHead, l);
      packets := packets[packet := packets[packet].(link := None)];
      if queueHead.None? { return Some(packet); }
      var mouse := queueHead.value;
      ghost var k := 0;
      LinkedAt(packets0, queueHead, l, 0);
      while packets[mouse].link.Some?
        invariant packets == packets0[packet := packets0[packet].(link := None)]
        invariant k < |l| && mouse == l[k] < |packets| && mouse != packet
        invariant packets[mouse].link == if k + 1 < |l| then Some(l[k + 1]) else None
        decreases |l| - k
      {
        LinkedAt(packets0, queueHead, l, k + 1);
        mouse := packets[mouse].link.value;
        k := k + 1;
      }
      packets := packets[mouse := packets[mouse].(link := Some(packet))];
      head := queueHead;
    }

    method CreatePacket(link: Option<nat>, identity: nat, kind: int) returns (p: nat)
      modifies `packets
      ensures p == |old(packets)| && packets == old(packets) + [Packet(link, identity, kind, 0, [0, 0, 0, 0])]
    {
      packets := packets + [Packet(link, identity, kind, 0, [0, 0, 0, 0])];
      p := |packets| - 1;
    }

    /** The new task is first in the task list. */
    method CreateTask(identity: nat, priority: int, work: Option<nat>, pending: bool, waiting: bool, holding: bool,
                      data: Record)
      requires identity < |table|
      modifies `tasks, `taskList, `table
      ensures tasks == old(tasks) + [Tcb(old(taskList), identity, priority, work, pending, waiting, holding, data)]
      ensures taskList == Some(|old(tasks)|) && table == old(table)[identity := Some(|old(tasks)|)]
    {
      tasks := tasks + [Tcb(taskList, identity, priority, work, pending, waiting, holding, data)];
      var i := |tasks| - 1;
      taskList := Some(i);
      table := table[identity := Some(i)];
    }

    method HoldSelf(ghost m: Machine) returns (next: Option<nat>)
      requires Stands(m) && currentTask.Some? && currentTask.value < |tasks|
      modifies `holdCount, `tasks
      ensures Stands(RichardsMachine.HoldSelf(m, currentTask.value))
      ensures next == RichardsMachine.HoldSelf(m, currentTask.value).current
    {
      hide Linked;
      var c := currentTask.value;
      ghost var t := m.tasks[c];
      assert TaskRep(packets, tasks[c], t);
      BlockRep(packets, tasks, m, c, tasks[c].(taskHolding := true), t.(holding := true), t.link, m.held + 1);
      holdCount := holdCount + 1;
      tasks := tasks[c := tasks[c].(taskHolding := true)];
      next := tasks[c].link;
    }

    method MarkWaiting(ghost m: Machine) returns (next: Option<nat>)
      requires Stands(m) && currentTask.Some? && currentTask.value < |tasks|
      modifies `tasks
      ensures Stands(RichardsMachine.MarkWaiting(m, currentTask.value))
      ensures next == RichardsMachine.MarkWaiting(m, currentTask.value).current
    {
      hide Linked;
      var c := currentTask.value;
      ghost var t := m.tasks[c];
      assert TaskRep(packets, tasks[c], t);
      BlockRep(packets, tasks, m, c, tasks[c].(taskWaiting := true), t.(waiting := true), Some(c), m.held);
      tasks := tasks[c := tasks[c].(taskWaiting := true)];
      next := Some(c);
    }

    method Release(identity: nat, ghost m: Machine) returns (next: Option<nat>)
      requires Stands(m) && WellFormed(m) && identity < NUM_TYPES && currentTask.Some? && currentTask.value < |tasks|
      modifies `tasks
      ensures Stands(RichardsMachine.Release(m, currentTask.value, identity))
      ensures next == RichardsMachine.Release(m, currentTask.value, identity).current
    {
      hide Linked, TaskOk;
      var t := table[identity].value;
      var c := currentTask.value;
      assert TaskRep(packets, tasks[t], m.tasks[t]) && TaskRep(packets, tasks[c], m.tasks[c]);
      ghost var next' := Some(Preferred(m, t, c));
      BlockRep(packets, tasks, m, t, tasks[t].(taskHolding := false), m.tasks[t].(holding := false), next', m.held);
      tasks := tasks[t := tasks[t].(taskHolding := false)];
      next := if tasks[t].priority > tasks[c].priority then Some(t) else Some(c);
    }

    /** Packet, in nobody's keeping, goes to its addressee. */
    method QueuePacket(packet: nat, ghost m: Machine) returns (next: Option<nat>)
      requires Stands(m) && WellFormed(m) && Distinct(m) && packet < |packets| && Places(m)[packet] == 0
      requires currentTask.Some? && currentTask.value < |tasks|
      modifies `packets, `tasks, `queuePacketCount
      ensures Stands(Queue(m, currentTask.value, packet)) && next == Queue(m, currentTask.value, packet).current
    {
      hide Linked, TaskOk, Places, Distinct;
      ghost var packets0, tasks0, c := packets, tasks, currentTask.value;
      assert ParcelOf(packets[packet]) == m.parcels[packet];
      assert ParcelOk(m.parcels[packet]);
      var t := table[packets[packet].identity].value;
      queuePacketCount := queuePacketCount + 1;
      packets := packets[packet := packets[packet].(link := None)];
      packets := packets[packet := packets[packet].(identity := currentTaskIdentity)];
      var old' := currentTask.value;
      next := AddInputAndCheckPriority(t, packet, old', packets0, m);
      ghost var b := tasks0[t].(input := if m.tasks[t].input == [] then Some(packet)
                                else tasks0[t].input, packetPending := true);
      QueueRep(packets0, tasks0, m, c, packet, t, packets, b);
      assert TaskRep(packets0, tasks0[t], m.tasks[t]) && TaskRep(packets0, tasks0[c], m.tasks[c]);
    }

    method AddInputAndCheckPriority(t: nat, packet: nat, old': nat, ghost packets0: seq<Packet>, ghost m: Machine)
        returns (next: Option<nat>)
      requires Rep(packets0, tasks, m) && t < |tasks| && old' < |tasks| && packet < |packets| == |packets0|
      requires Distinct(m) && Places(m)[packet] == 0
      requires packets == packets0[packet := packets0[packet].(link := None, identity := m.currentIdentity)]
      modifies `packets, `tasks
      ensures var l := m.tasks[t].input;
              && (l != [] ==> l[|l| - 1] < |packets0|)
              && packets == Appended(packets0[packet := packets0[packet].(identity := m.currentIdentity)], l, packet)
              && tasks == old(tasks)[t := old(tasks)[t].(input := if l == [] then Some(packet) else old(tasks)[t].input,
                                                         packetPending := true)]
      ensures next == Some(if m.tasks[t].input == [] then Preferred(m, t, old') else old')
    {
      hide Linked, TaskOk, Places, Distinct;
      ghost var l := m.tasks[t].input;
      assert TaskRep(packets0, tasks[t], m.tasks[t]) && TaskRep(packets0, tasks[old'], m.tasks[old']);
      LinkedHead(packets0, tasks[t].input, l);
      SlotsApart(m, t);
      InputApart(m.tasks[t]);
      NotPlaced(m, packet, t);
      InputHas(m.tasks[t]);
      LinkedFrame(packets0, packets, tasks[t].input, l);
      if tasks[t].input.None? {
        tasks := tasks[t := tasks[t].(input := Some(packet))];
        tasks := tasks[t := tasks[t].(packetPending := true)];
        if tasks[t].priority > tasks[old'].priority { return Some(t); }
      } else {
        var input := tasks[t].input;
        input := Append(packet, input, l);
        tasks := tasks[t := tasks[t].(input := input)];
      }
      next := Some(old');
    }
  
    method RunDevice(t: nat, work: Option<nat>, ghost m: Machine) returns (next: Option<nat>)
      requires Stands(m) && Runnable(m, t, work) && Distinct(m) && (work.Some? ==> Places(m)[work.value] == 0)
      requires currentTask == Some(t) && t < |tasks| && tasks[t].data.DeviceData?
      modifies `packets, `tasks, `queuePacketCount, `holdCount
      ensures m.tasks[t].role.Device? && Stands(RichardsMachine.RunDevice(m, t, work))
      ensures next == RichardsMachine.RunDevice(m, t, work).current
    {
      hide Linked, TaskOk, Places, Distinct, WellFormed, Queue, Slots;
      ghost var a := m.tasks[t];
      assert TaskRep(packets, tasks[t], a);
      LinkKnown(m, t);
      var pending := tasks[t].data.pending;
      match work
      case None =>
        match pending {
        case None => next := MarkWaiting(m);
        case Some(fw) =>
          PendingKnown(m, t);
          RoleKept(m, t, Device(None));
          RolePlaces(m, t, Device(None), multiset{fw}, multiset{});
          assert Places(m) + multiset{} == Places(m);
          ghost var m1 := WithRole(m, t, Device(None));
          DistinctLess(m, m1, fw);
          BlockRep(packets, tasks, m, t, tasks[t].(data := DeviceData(None)), a.(role := Device(None)), m.current,
            m.held);
          tasks := tasks[t := tasks[t].(data := DeviceData(None))];
          next := QueuePacket(fw, m1);
        }
      case Some(w) =>
        BlockRep(packets, tasks, m, t, tasks[t].(data := DeviceData(Some(w))), a.(role := Device(Some(w))), m.current,
          m.held);
        tasks := tasks[t := tasks[t].(data := DeviceData(Some(w)))];
        next := HoldSelf(WithRole(m, t, Device(Some(w))));
    }

    method SetIdle(t: nat, control: nat, count: int, ghost m: Machine)
      requires Stands(m) && t < |tasks|
      modifies `tasks
      ensures |tasks| == |old(tasks)| && Stands(WithRole(m, t, Idle(control, count)))
    {
      RecordRep(packets, tasks, m, t, IdleData(control, count), Idle(control, count));
      tasks := tasks[t := tasks[t].(data := IdleData(control, count))];
    }

    method RunIdle(t: nat, ghost m: Machine) returns (next: Option<nat>)
      requires Stands(m) && Runnable(m, t, None)
      requires currentTask == Some(t) && t < |tasks| && tasks[t].data.IdleData?
      modifies `tasks, `holdCount
      ensures m.tasks[t].role.Idle? && Stands(RichardsMachine.RunIdle(m, t))
      ensures next == RichardsMachine.RunIdle(m, t).current
    {
      hide Linked, TaskOk, Places, Distinct, WellFormed, Slots, Xor, RichardsMachine.HoldSelf, RichardsMachine.Release;
      assert TaskRep(packets, tasks[t], m.tasks[t]);
      LinkKnown(m, t);
      hide Rep;
      var control, count := tasks[t].data.control, tasks[t].data.count;
      var c := count - 1;
      if c == 0 {
        SetIdle(t, control, c, m);
        next := HoldSelf(WithRole(m, t, Idle(control, c)));
      } else if control % 2 == 0 {
        RoleKept(m, t, Idle(control / 2, c));
        SetIdle(t, control / 2, c, m);
        next := Release(DEVICE_A, WithRole(m, t, Idle(control / 2, c)));
      } else {
        var control' := Xor(control / 2, 53256);
        RoleKept(m, t, Idle(control', c));
        SetIdle(t, control', c, m);
        next := Release(DEVICE_B, WithRole(m, t, Idle(control', c)));
      }
    }

    method RunWorker(t: nat, work: Option<nat>, ghost m: Machine) returns (next: Option<nat>)
      requires Stands(m) && Runnable(m, t, work) && Distinct(m) && (work.Some? ==> Places(m)[work.value] == 0)
      requires currentTask == Some(t) && t < |tasks| && tasks[t].data.WorkerData?
      modifies `packets, `tasks, `queuePacketCount
      ensures m.tasks[t].role.Worker? && Stands(RichardsMachine.RunWorker(m, t, work))
      ensures next == RichardsMachine.RunWorker(m, t, work).current
    {
      hide Linked, TaskOk, Places, Distinct, WellFormed, Slots, Queue, Letters;
      ghost var a := m.tasks[t];
      assert TaskRep(packets, tasks[t], a);
      LinkKnown(m, t);
      match work
      case None => next := MarkWaiting(m);
      case Some(w) =>
        assert ParcelOf(packets[w]) == m.parcels[w];
        ParcelFull(m, w);
        var count := tasks[t].data.count;
        var dest := if tasks[t].data.destination == HANDLER_A then HANDLER_B else HANDLER_A;
        var b := FillLetters(w, dest, count);
        ghost var letters := Letters(count, DATA_SIZE);
        ghost var p := Parcel(dest, m.parcels[w].kind, 0, letters.0);
        ParcelRep(old(packets), tasks, m, w, packets[w]);
        ghost var m1 := m.(parcels := m.parcels[w := p]);
        assert TaskRep(packets, tasks[t], m1.tasks[t]);
        BlockRep(packets, tasks, m1, t, tasks[t].(data := WorkerData(dest, b)), a.(role := Worker(dest, b)), m.current,
          m.held);
        tasks := tasks[t := tasks[t].(data := WorkerData(dest, b))];
        WorkerKept(m, t, Worker(dest, b), w, p);
        ghost var m2 := WithRole(m, t, Worker(dest, b)).(parcels := m.parcels[w := p]);
        RolePlaces(m, t, Worker(dest, b), multiset{}, multiset{});
        SamePlaces(WithRole(m, t, Worker(dest, b)), m2);
        DistinctSame(m, m2);
        next := QueuePacket(w, m2);
    }

    /** Readdress packet w to the other handler and write the next letters into it. */
    method FillLetters(w: nat, dest: nat, count: nat) returns (cnt: nat)
      requires w < |packets| && |packets[w].data| == DATA_SIZE
      modifies `packets
      ensures cnt == Letters(count, DATA_SIZE).1
      ensures packets == old(packets)[w := Packet(old(packets)[w].link, dest, old(packets)[w].kind, 0,
          Letters(count, DATA_SIZE).0)]
    {
      packets := packets[w := packets[w].(identity := dest)];
      packets := packets[w := packets[w].(datum := 0)];
      cnt := count;
      for i := 0 to DATA_SIZE
        invariant |packets| == |old(packets)| && |packets[w].data| == DATA_SIZE
        invariant cnt == Letters(count, i).1 && packets[w].data[..i] == Letters(count, i).0
        invariant packets == old(packets)[w := Packet(old(packets)[w].link, dest, old(packets)[w].kind, 0,
            packets[w].data)]
      {
        cnt := cnt + 1;
        if cnt > 26 { cnt := 1; }
        var data := packets[w].data[i := 65 + cnt - 1];
        assert data[..i + 1] == packets[w].data[..i] + [65 + cnt - 1];
        packets := packets[w := packets[w].(data := data)];
      }
      assert packets[w].data[..DATA_SIZE] == packets[w].data;
    }
  
    /** Take the packet in hand into the list of its kind. */
    method Receive(t: nat, work: Option<nat>, ghost m: Machine)
      requires Stands(m) && Runnable(m, t, work) && Distinct(m) && (work.Some? ==> Places(m)[work.value] == 0)
      requires t < |tasks| && tasks[t].data.HandlerData? && m.tasks[t].role.Handler?
      modifies `packets, `tasks
      ensures Stands(WithRole(m, t, Received(m, m.tasks[t].role, work)))
      ensures |tasks| == |old(tasks)| && tasks[t].data.HandlerData?
    {
      hide Linked, TaskOk, Places, Distinct, WellFormed, Slots;
      ghost var a := m.tasks[t];
      assert TaskRep(packets, tasks[t], a);
      var wi, di := tasks[t].data.workIn, tasks[t].data.deviceIn;
      if work.Some? {
        var w := work.value;
        ghost var packets0 := packets;
        assert ParcelOf(packets[w]) == m.parcels[w];
        SlotsApart(m, t);
        RoleApart(a);
        KeptHas(a);
        NotPlaced(m, w, t);
        if packets[w].kind == WORK_PACKET_KIND {
          wi := Append(w, wi, a.role.work);
        } else {
          di := Append(w, di, a.role.device);
        }
        ReceiveRep(packets0, tasks, m, t, w, packets, HandlerData(wi, di));
      } else {
        BlockRep(packets, tasks, m, t, tasks[t].(data := HandlerData(wi, di)), a, m.current, m.held);
        assert WithTask(m, t, a).(current := m.current, held := m.held) == WithRole(m, t, Received(m, a.role, work));
      }
      tasks := tasks[t := tasks[t].(data := HandlerData(wi, di))];
    }

    method RunHandler(t: nat, work: Option<nat>, ghost m: Machine) returns (next: Option<nat>)
      requires Stands(m) && Runnable(m, t, work) && Distinct(m) && (work.Some? ==> Places(m)[work.value] == 0)
      requires currentTask == Some(t) && t < |tasks| && tasks[t].data.HandlerData? && m.tasks[t].role.Handler?
      modifies `packets, `tasks, `queuePacketCount
      ensures Stands(RichardsMachine.RunHandler(m, t, work)) && next == RichardsMachine.RunHandler(m, t, work).current
    {
      hide Linked, TaskOk, Places, Distinct, WellFormed, Slots, Queue, Filled, Received;
      ghost var r := Received(m, m.tasks[t].role, work);
      ReceivedKept(m, t, work);
      RoleKept(m, t, r);
      ReceivedDistinct(m, t, work);
      Receive(t, work, m);
      ghost var m1 := WithRole(m, t, r);
      assert TaskRep(packets, tasks[t], m1.tasks[t]);
      LinkedHead(packets, tasks[t].data.workIn, r.work);
      LinkedHead(packets, tasks[t].data.deviceIn, r.device);
      match tasks[t].data.workIn
      case None => next := MarkWaiting(m1);
      case Some(wp) =>
        HandlerHeads(m1, t, r);
        HandledKept(m, t, work);
        var count := packets[wp].datum;
        assert ParcelOf(packets[wp]) == m1.parcels[wp];
        if count >= DATA_SIZE {
          RoleKept(m1, t, r.(work := r.work[1..]));
          next := SendWork(t, wp, r, m1);
        } else {
          match tasks[t].data.deviceIn {
          case None => next := MarkWaiting(m1);
          case Some(dp) =>
            RoleKept(m1, t, r.(device := r.device[1..]));
            next := SendDevice(t, wp, dp, count, r, m1);
          }
        }
    }

    /** The finished work packet at the head of the work list leaves. */
    method SendWork(t: nat, wp: nat, ghost r: Role, ghost m: Machine) returns (next: Option<nat>)
      requires Stands(m) && WellFormed(m) && Distinct(m) && currentTask == Some(t) && t < |tasks|
      requires tasks[t].data.HandlerData? && r.Handler? && r == m.tasks[t].role && r.work != []
          && wp == r.work[0] < |packets|
      requires WellFormed(WithRole(m, t, r.(work := r.work[1..])))
      modifies `packets, `tasks, `queuePacketCount
      ensures var m' := WithRole(m, t, r.(work := r.work[1..]));
              Stands(Queue(m', t, wp)) && next == Queue(m', t, wp).current
    {
      hide Linked, TaskOk, Places, Distinct, WellFormed, Slots, Queue;
      assert TaskRep(packets, tasks[t], m.tasks[t]);
      LinkedTail(packets, tasks[t].data.workIn, r.work);
      ghost var m' := WithRole(m, t, r.(work := r.work[1..]));
      WorkRest(r);
      RolePlaces(m, t, r.(work := r.work[1..]), multiset{wp}, multiset{});
      assert Places(m) + multiset{} == Places(m);
      DistinctLess(m, m', wp);
      var d := HandlerData(packets[wp].link, tasks[t].data.deviceIn);
      RecordRep(packets, tasks, m, t, d, m'.tasks[t].role);
      tasks := tasks[t := tasks[t].(data := d)];
      next := QueuePacket(wp, m');
    }

    /** The device packet at the head of its list takes the next item of the work packet and leaves. */
    method SendDevice(t: nat, wp: nat, dp: nat, count: int, ghost r: Role, ghost m: Machine) returns (next: Option<nat>)
      requires Stands(m) && WellFormed(m) && Distinct(m) && currentTask == Some(t) && t < |tasks|
      requires tasks[t].data.HandlerData? && r.Handler? && r == m.tasks[t].role && r.work != [] && r.device != []
      requires wp == r.work[0] < |packets| && dp == r.device[0] < |packets| && 0 <= count < DATA_SIZE
      requires WellFormed(WithRole(m, t, r.(device := r.device[1..])))
      modifies `packets, `tasks, `queuePacketCount
      ensures var m' := Filled(WithRole(m, t, r.(device := r.device[1..])), wp, dp, count);
              Stands(Queue(m', t, dp)) && next == Queue(m', t, dp).current
    {
      hide Linked, TaskOk, Places, Distinct, WellFormed, Slots, Queue, SameShape;
      assert TaskRep(packets, tasks[t], m.tasks[t]);
      LinkedTail(packets, tasks[t].data.deviceIn, r.device);
      ghost var m1 := WithRole(m, t, r.(device := r.device[1..]));
      ghost var m' := Filled(m1, wp, dp, count);
      DeviceRest(r);
      RolePlaces(m, t, r.(device := r.device[1..]), multiset{dp}, multiset{});
      assert Places(m) + multiset{} == Places(m);
      DistinctLess(m, m1, dp);
      SamePlaces(m1, m');
      DistinctSame(m1, m');
      var d := HandlerData(tasks[t].data.workIn, packets[dp].link);
      RecordRep(packets, tasks, m, t, d, m1.tasks[t].role);
      tasks := tasks[t := tasks[t].(data := d)];
      ParcelFull(m, wp);
      FillPacket(wp, dp, count, m1);
      next := QueuePacket(dp, m');
    }

    method FillPacket(wp: nat, dp: nat, count: int, ghost m: Machine)
      requires Stands(m) && WellFormed(m) && wp < |packets| && dp < |packets| && 0 <= count < DATA_SIZE
      modifies `packets
      ensures |packets| == |old(packets)| && Stands(Filled(m, wp, dp, count))
    {
      hide TaskRep, TaskOk, Slots;
      ParcelFull(m, wp);
      assert ParcelOf(packets[wp]) == m.parcels[wp] && ParcelOf(packets[dp]) == m.parcels[dp];
      ghost var packets0 := packets;
      packets := packets[dp := packets[dp].(datum := packets[wp].data[count])];
      ParcelRep(packets0, tasks, m, dp, packets[dp]);
      ghost var packets1, m2 := packets, m.(parcels := m.parcels[dp := ParcelOf(packets[dp])]);
      packets := packets[wp := packets[wp].(datum := count + 1)];
      ParcelRep(packets1, tasks, m2, wp, packets[wp]);
    }

    method RunFunction(t: nat, work: Option<nat>, ghost m: Machine) returns (next: Option<nat>)
      requires Stands(m) && Runnable(m, t, work) && Distinct(m) && (work.Some? ==> Places(m)[work.value] == 0)
      requires currentTask == Some(t)
      modifies `packets, `tasks, `queuePacketCount, `holdCount
      ensures Stands(RichardsMachine.RunFunction(m, t, work)) && next == RichardsMachine.RunFunction(m, t, work).current
    {
      hide Linked, TaskOk, Places, Distinct, WellFormed, Slots;
      assert TaskRep(packets, tasks[t], m.tasks[t]);
      match tasks[t].data
      case DeviceData(_) => next := RunDevice(t, work, m);
      case HandlerData(_, _) => next := RunHandler(t, work, m);
      case IdleData(_, _) => next := RunIdle(t, m);
      case WorkerData(_, _) => next := RunWorker(t, work, m);
    }

    method RunTask(t: nat, ghost m: Machine) returns (next: Option<nat>)
      requires Stands(m) && WellFormed(m) && Distinct(m) && currentTask == Some(t) && t < |tasks|
      requires !HoldingOrWaiting(m.tasks[t])
      modifies `packets, `tasks, `queuePacketCount, `holdCount
      ensures Stands(RichardsMachine.RunTask(m, t)) && next == RichardsMachine.RunTask(m, t).current
    {
      hide Linked, TaskOk, Places, Distinct, WellFormed, Slots, RichardsMachine.RunFunction;
      ghost var a := m.tasks[t];
      assert TaskRep(packets, tasks[t], a);
      LinkKnown(m, t);
      if tasks[t].packetPending && tasks[t].taskWaiting && !tasks[t].taskHolding {
        LinkedTail(packets, tasks[t].input, a.input);
        LinkedHead(packets, tasks[t].input, a.input);
        var msg := tasks[t].input.value;
        var next' := packets[msg].link;
        LinkedHead(packets, next', a.input[1..]);
        TakenKept(m, t);
        TakenPlaces(m, t);
        DistinctLess(m, Taken(m, t), msg);
        ghost var b := tasks[t].(input := next', packetPending := next'.Some?, taskWaiting := false,
                                 taskHolding := false);
        BlockRep(packets, tasks, m, t, b, Taken(m, t).tasks[t], m.current, m.held);
        tasks := tasks[t := tasks[t].(input := next')];
        if next'.None? {
          tasks := tasks[t := tasks[t].(packetPending := false, taskWaiting := false, taskHolding := false)];
        } else {
          tasks := tasks[t := tasks[t].(packetPending := true, taskWaiting := false, taskHolding := false)];
        }
        next := RunFunction(t, Some(msg), Taken(m, t));
      } else {
        next := RunFunction(t, None, m);
      }
    }

    /** One turn of the scheduling loop. */
    method Turn(ghost m: Machine)
      requires Stands(m) && WellFormed(m) && Distinct(m) && currentTask == m.current && currentTask.Some?
      modifies `packets, `tasks, `queuePacketCount, `holdCount, `currentTask, `currentTaskIdentity
      ensures Stands(Next(m)) && currentTask == Next(m).current
    {
      hide Linked, TaskOk, Places, Distinct, WellFormed, Slots, RichardsMachine.RunTask;
      var c := currentTask.value;
      CurrentBelow(m);
      assert TaskRep(packets, tasks[c], m.tasks[c]);
      if tasks[c].taskHolding || (!tasks[c].packetPending && tasks[c].taskWaiting) {
        currentTask := tasks[c].link;
        RepSame(packets, tasks, m, Next(m));
      } else {
        currentTaskIdentity := tasks[c].identity;
        ghost var m1 := m.(currentIdentity := tasks[c].identity);
        LinkKnown(m, c);
        IdentityKept(m, tasks[c].identity);
        SamePlaces(m, m1);
        DistinctSame(m, m1);
        RepSame(packets, tasks, m, m1);
        var next := RunTask(c, m1);
        currentTask := next;
      }
    }

    /** Schedule from the head of the task list until no task is left: a typed system comes to an end. */
    method Schedule(ghost m: Machine)
      requires Stands(m) && Typed(m) && m.current == taskList
      modifies `packets, `tasks, `queuePacketCount, `holdCount, `currentTask, `currentTaskIdentity
      ensures Stands(Run(m, Turns(m))) && currentTask == None
    {
      hide Rep, TaskOk, Places, Distinct, WellFormed, Next, Suited, Turns;
      currentTask := taskList;
      ghost var s := m;
      while currentTask.Some?
        invariant Stands(s) && Typed(s) && currentTask == s.current && Run(s, Turns(s)) == Run(m, Turns(m))
        decreases Turns(s)
      {
        TurnLeft(s);
        Turn(s);
        s := Next(s);
      }
      assert Turns(s) == 0 by { NoTurns(s); }
    }

    /** The same for at most limit turns, from any queues. */
    method ScheduleFor(limit: nat, ghost m: Machine)
      requires Stands(m) && WellFormed(m) && Distinct(m) && m.current == taskList
      modifies `packets, `tasks, `queuePacketCount, `holdCount, `currentTask, `currentTaskIdentity
      ensures Stands(Run(m, limit)) && currentTask == Run(m, limit).current
    {
      hide Rep, TaskOk, Places, Distinct, WellFormed, Next;
      currentTask := taskList;
      ghost var s := m;
      var turns := 0;
      while currentTask.Some? && turns < limit
        invariant turns <= limit && Stands(s) && WellFormed(s) && Distinct(s) && currentTask == s.current
        invariant Run(s, limit - turns) == Run(m, limit)
        decreases limit - turns
      {
        NextKept(s);
        DistinctSame(s, Next(s));
        Turn(s);
        s := Next(s);
        turns := turns + 1;
      }
    }
  
    /** The benchmark's six tasks and eight packets. */
    method SetUp()
      requires packets == [] && tasks == [] && table == seq(NUM_TYPES, _ => None) && taskList == None
      requires queuePacketCount == 0 && holdCount == 0 && currentTaskIdentity == 0
      modifies this
      ensures Stands(StartMachine()) && taskList == StartMachine().current
      ensures WellFormed(StartMachine()) && EachOnce(StartMachine())
    {
      hide Rep, WellFormed, EachOnce, Places, TaskOk, ParcelOk, Linked;
      CreateTask(0, 0, None, false, false, false, IdleData(1, 10000));
      var wq := CreatePacket(None, WORKER, WORK_PACKET_KIND);
      wq := CreatePacket(Some(wq), WORKER, WORK_PACKET_KIND);
      CreateTask(WORKER, 1000, Some(wq), true, true, false, WorkerData(HANDLER_A, 0));
      wq := CreatePacket(None, DEVICE_A, DEVICE_PACKET_KIND);
      wq := CreatePacket(Some(wq), DEVICE_A, DEVICE_PACKET_KIND);
      wq := CreatePacket(Some(wq), DEVICE_A, DEVICE_PACKET_KIND);
      CreateTask(HANDLER_A, 2000, Some(wq), true, true, false, HandlerData(None, None));
      wq := CreatePacket(None, DEVICE_B, DEVICE_PACKET_KIND);
      wq := CreatePacket(Some(wq), DEVICE_B, DEVICE_PACKET_KIND);
      wq := CreatePacket(Some(wq), DEVICE_B, DEVICE_PACKET_KIND);
      CreateTask(HANDLER_B, 3000, Some(wq), true, true, false, HandlerData(None, None));
      CreateTask(DEVICE_A, 4000, None, false, true, false, DeviceData(None));
      CreateTask(DEVICE_B, 5000, None, false, true, false, DeviceData(None));
      assert packets == StartPackets();
      assert tasks == StartTasks();
      StartRep();
      StartOk();
    }

    /**
     * The benchmark comes to an end; at the end as at every turn each packet is in exactly one place, and
     * nothing that could run has a higher priority than the current task.
     */
    method Start()
      requires packets == [] && tasks == [] && table == seq(NUM_TYPES, _ => None) && taskList == None
      requires queuePacketCount == 0 && holdCount == 0 && currentTaskIdentity == 0
      modifies this
      ensures exists n: nat :: Stands(Started(n)) && Started(n).current == None
      ensures currentTask == None && forall n: nat :: EachOnce(Started(n)) && Prior(Started(n))
    {
      hide Rep, WellFormed, Places, TaskOk, ParcelOk, Linked, Run, StartMachine, Typed, EachOnce, Turns, Prior;
      SetUp();
      StartTyped();
      Schedule(StartMachine());
      RunEnds(StartMachine());
      forall n: nat ensures EachOnce(Started(n)) && Prior(Started(n)) {
        RunKept(StartMachine(), n);
        StartPrior(n);
      }
      assert Stands(Started(Turns(StartMachine())));
    }
  }

  function StartPacket(link: Option<nat>, identity: nat, kind: int): Packet
  {
    Packet(link, identity, kind, 0, [0, 0, 0, 0])
  }

  function StartPackets(): seq<Packet>
  {
    [StartPacket(None, WORKER, WORK_PACKET_KIND), StartPacket(Some(0), WORKER, WORK_PACKET_KIND),
     StartPacket(None, DEVICE_A, DEVICE_PACKET_KIND), StartPacket(Some(2), DEVICE_A, DEVICE_PACKET_KIND),
     StartPacket(Some(3), DEVICE_A, DEVICE_PACKET_KIND),
     StartPacket(None, DEVICE_B, DEVICE_PACKET_KIND), StartPacket(Some(5), DEVICE_B, DEVICE_PACKET_KIND),
     StartPacket(Some(6), DEVICE_B, DEVICE_PACKET_KIND)]
  }

  function StartTasks(): seq<Tcb>
  {
    [Tcb(None, 0, 0, None, false, false, false, IdleData(1, 10000)),
     Tcb(Some(0), WORKER, 1000, Some(1), true, true, false, WorkerData(HANDLER_A, 0)),
     Tcb(Some(1), HANDLER_A, 2000, Some(4), true, true, false, HandlerData(None, None)),
     Tcb(Some(2), HANDLER_B, 3000, Some(7), true, true, false, HandlerData(None, None)),
     Tcb(Some(3), DEVICE_A, 4000, None, false, true, false, DeviceData(None)),
     Tcb(Some(4), DEVICE_B, 5000, None, false, true, false, DeviceData(None))]
  }

  /** The benchmark after limit turns. */
  ghost function Started(limit: nat): Machine
  {
    StartOk();
    Run(StartMachine(), limit)
  }

  /** What the benchmark starts from. */
  function StartMachine(): Machine
  {
    Machine([Parcel(WORKER, WORK_PACKET_KIND, 0, [0, 0, 0, 0]), Parcel(WORKER, WORK_PACKET_KIND, 0, [0, 0, 0, 0]),
             Parcel(DEVICE_A, DEVICE_PACKET_KIND, 0, [0, 0, 0, 0]),
               Parcel(DEVICE_A, DEVICE_PACKET_KIND, 0, [0, 0, 0, 0]),
             Parcel(DEVICE_A, DEVICE_PACKET_KIND, 0, [0, 0, 0, 0]),
             Parcel(DEVICE_B, DEVICE_PACKET_KIND, 0, [0, 0, 0, 0]),
               Parcel(DEVICE_B, DEVICE_PACKET_KIND, 0, [0, 0, 0, 0]),
             Parcel(DEVICE_B, DEVICE_PACKET_KIND, 0, [0, 0, 0, 0])],
            [Task(None, 0, 0, [], false, false, Idle(1, 10000)),
             Task(Some(0), WORKER, 1000, [1, 0], true, false, Worker(HANDLER_A, 0)),
             Task(Some(1), HANDLER_A, 2000, [4, 3, 2], true, false, Handler([], [])),
             Task(Some(2), HANDLER_B, 3000, [7, 6, 5], true, false, Handler([], [])),
             Task(Some(3), DEVICE_A, 4000, [], true, false, Device(None)),
             Task(Some(4), DEVICE_B, 5000, [], true, false, Device(None))],
            [0, 1, 2, 3, 4, 5], Some(5), 0, 0, 0)
  }

  lemma StartRep()
    ensures Rep(StartPackets(), StartTasks(), StartMachine())
  {
    var packets, tasks, m := StartPackets(), StartTasks(), StartMachine();
    forall p: nat | p < |packets| ensures ParcelOf(packets[p]) == m.parcels[p] {}
    LinkedPair(packets, 1, 0);
    LinkedTriple(packets, 4, 3, 2);
    LinkedTriple(packets, 7, 6, 5);
    LinkedNone(packets);
    hide Linked;
    forall i: nat | i < |tasks| ensures TaskRep(packets, tasks[i], m.tasks[i]) {}
  }

  lemma LinkedNone(packets: seq<Packet>)
    ensures Linked(packets, None, [])
  {}

  lemma LinkedPair(packets: seq<Packet>, a: nat, b: nat)
    requires a < |packets| && b < |packets| && packets[a].link == Some(b) && packets[b].link == None
    ensures Linked(packets, Some(a), [a, b])
  {}

  lemma LinkedTriple(packets: seq<Packet>, a: nat, b: nat, c: nat)
    requires a < |packets| && b < |packets| && c < |packets|
    requires packets[a].link == Some(b) && packets[b].link == Some(c) && packets[c].link == None
    ensures Linked(packets, Some(a), [a, b, c])
  {}

  /** The start is well-formed and has every packet in one place, so all that follows holds of its runs. */
  lemma StartOk()
    ensures WellFormed(StartMachine()) && EachOnce(StartMachine())
  {
    StartWellFormed();
    StartSlots();
    hide WellFormed, Gather, Slots, StartMachine;
    var t := StartMachine().tasks;
    var none, a, b, c := multiset([]), multiset([1, 0]), multiset([4, 3, 2]), multiset([7, 6, 5]);
    GatherNext(t, 0, multiset{}, none);
    GatherNext(t, 1, multiset{} + none, a);
    GatherNext(t, 2, multiset{} + none + a, b);
    GatherNext(t, 3, multiset{} + none + a + b, c);
    GatherNext(t, 4, multiset{} + none + a + b + c, none);
    GatherNext(t, 5, multiset{} + none + a + b + c + none, none);
    assert t[..6] == t;
    StartCount(multiset{} + none + a + b + c + none + none);
  }

  lemma StartSlots()
    ensures var t := StartMachine().tasks;
            && |t| == 6 && Slots(t[0]) == Slots(t[4]) == Slots(t[5]) == []
            && Slots(t[1]) == [1, 0] && Slots(t[2]) == [4, 3, 2] && Slots(t[3]) == [7, 6, 5]
    ensures |StartMachine().parcels| == 8
  {}

  lemma StartCount(s: multiset<nat>)
    requires s == multiset{} + multiset([]) + multiset([1, 0]) + multiset([4, 3, 2]) + multiset([7, 6,
        5]) + multiset([]) + multiset([])
    ensures forall p: nat :: s[p] == if p < 8 then 1 else 0
  {
    assert multiset([1, 0]) == multiset{1, 0} && multiset([4, 3, 2]) == multiset{4, 3, 2}
        && multiset([7, 6, 5]) == multiset{7, 6, 5};
  }

  lemma StartWellFormed()
    ensures WellFormed(StartMachine())
  {
    var m := StartMachine();
    forall p: nat | p < |m.parcels| ensures ParcelOk(m.parcels[p]) {}
    forall i: nat | i < |m.tasks| ensures TaskOk(m.tasks[i], i, |m.parcels|) {}
  }

  lemma GatherNext(tasks: seq<Task>, n: nat, before: multiset<nat>, more: multiset<nat>)
    requires n < |tasks| && multiset(Slots(tasks[n])) == more && (n == 0 ==> before == multiset{})
    requires n > 0 ==> Gather(tasks[..n]) == before
    ensures Gather(tasks[..n + 1]) == before + more
  {
    assert tasks[..n + 1][..n] == tasks[..n];
  }

  lemma StartPrior(n: nat)
    ensures Prior(Started(n))
  {
    var m := StartMachine();
    StartOk();
    forall i: nat, k: nat | i < |m.tasks| && k < |m.tasks| && k != i ensures Steps(m, i, k) {}
    HeadPrior(m);
    hide *;
    StartedIs(n);
    RunPrior(m, n);
  }

  lemma StartedIs(n: nat)
    ensures WellFormed(StartMachine()) && Started(n) == Run(StartMachine(), n)
  {
    hide WellFormed, StartMachine, Run;
    StartOk();
  }

  lemma StartTyped()
    ensures Typed(StartMachine())
  {
    StartOk();
    hide WellFormed, EachOnce, Places;
    var m := StartMachine();
    StartSuits();
    assert Distinct(m) by { StartDistinct(m); }
  }

  lemma StartDistinct(m: Machine)
    requires EachOnce(m)
    ensures Distinct(m)
  {}

  lemma StartSuits()
    ensures Suited(StartMachine())
  {
    StartSlots();
    hide Slots;
    var m := StartMachine();
    forall i: nat | i < |m.tasks| ensures Suits(m.parcels, m.tasks[i]) {}
    forall d: nat | 0 < d < NUM_TYPES ensures !m.tasks[m.table[d]].role.Idle? && GoesBy(d, m.tasks[m.table[d]].role) {}
  }
}
