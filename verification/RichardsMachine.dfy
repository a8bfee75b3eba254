/** The Richards scheduler as an abstract machine: tasks exchange packets through plain queues. */
module RichardsMachine {
  import opened Options
  import opened Words

  const WORKER := 1
  const HANDLER_A := 2
  const HANDLER_B := 3
  const DEVICE_A := 4
  const DEVICE_B := 5
  const NUM_TYPES := 6
  const DEVICE_PACKET_KIND := 0
  const WORK_PACKET_KIND := 1
  const DATA_SIZE := 4

  /** What a packet carries, apart from its link. */
  datatype Parcel = Parcel(identity: nat, kind: int, datum: int, data: seq<int>)

  datatype Role =
    | Device(pending: Option<nat>)
    | Handler(work: seq<nat>, device: seq<nat>)
    | Idle(control: nat, count: int)
    | Worker(destination: nat, count: int)

  /** A task; packet_pending in the source is input != []. */
  datatype Task = Task(link: Option<nat>, identity: nat, priority: int, input: seq<nat>,
                       waiting: bool, holding: bool, role: Role)

  datatype Machine = Machine(parcels: seq<Parcel>, tasks: seq<Task>, table: seq<nat>, current: Option<nat>,
                             currentIdentity: nat, queued: nat, held: nat)

  predicate HoldingOrWaiting(t: Task) { t.holding || (t.input == [] && t.waiting) }

  predicate WaitingWithPacket(t: Task) { t.input != [] && t.waiting && !t.holding }

  // ── Well-formed states ────────────────────────────────────────────

  ghost predicate ParcelOk(p: Parcel)
  {
    p.identity < NUM_TYPES && p.datum >= 0 && |p.data| == DATA_SIZE && forall i: nat :: i < DATA_SIZE ==> p.data[i] >= 0
  }

  /** The packets a task has, in its input and in its own keeping. */
  function Slots(t: Task): seq<nat> { t.input + Kept(t.role) }

  function Kept(r: Role): seq<nat>
  {
    match r
    case Device(pending) => if pending.Some? then [pending.value] else []
    case Handler(work, device) => work + device
    case _ => []
  }

  /** Tasks link to earlier ones, a waiting device has no packet pending, the idle task never waits,
      and packets are known. */
  ghost predicate TaskOk(t: Task, i: nat, n: nat)
  {
    && t.identity < NUM_TYPES && (t.link.Some? ==> t.link.value < i)
    && (forall x :: x in Slots(t) ==> x < n)
    && (t.role.Device? && t.waiting ==> t.role.pending.None?)
    && (t.role.Idle? ==> !t.waiting)
    && (t.role.Worker? ==> t.role.count >= 0)
  }

  ghost predicate WellFormed(m: Machine)
  {
    && |m.table| == NUM_TYPES && m.currentIdentity < NUM_TYPES
    && (forall d: nat :: d < NUM_TYPES ==> m.table[d] < |m.tasks|)
    && (m.current.Some? ==> m.current.value < |m.tasks|)
    && (forall p: nat :: p < |m.parcels| ==> ParcelOk(m.parcels[p]))
    && (forall i: nat :: i < |m.tasks| ==> TaskOk(m.tasks[i], i, |m.parcels|))
  }

  // ── Steps ─────────────────────────────────────────────────────────

  function WithTask(m: Machine, i: nat, t: Task): Machine
    requires i < |m.tasks|
  {
    m.(tasks := m.tasks[i := t])
  }

  function WithRole(m: Machine, i: nat, r: Role): Machine
    requires i < |m.tasks|
  {
    WithTask(m, i, m.tasks[i].(role := r))
  }

  /** The running task stays on hold; its successor in the task list is next. */
  function HoldSelf(m: Machine, i: nat): Machine
    requires i < |m.tasks|
  {
    WithTask(m, i, m.tasks[i].(holding := true)).(held := m.held + 1, current := m.tasks[i].link)
  }

  function MarkWaiting(m: Machine, i: nat): Machine
    requires i < |m.tasks|
  {
    WithTask(m, i, m.tasks[i].(waiting := true)).(current := Some(i))
  }

  /** The task to run next when t was made ready by i. */
  function Preferred(m: Machine, t: nat, i: nat): nat
    requires t < |m.tasks| && i < |m.tasks|
  {
    if m.tasks[t].priority > m.tasks[i].priority then t else i
  }

  /** Packet p goes to the end of its addressee's input, and will come back to the running task. */
  function Queue(m: Machine, i: nat, p: nat): Machine
    requires WellFormed(m) && i < |m.tasks| && p < |m.parcels|
  {
    var t := m.table[m.parcels[p].identity];
    var next := if m.tasks[t].input == [] then Preferred(m, t, i) else i;
    WithTask(m, t, m.tasks[t].(input := m.tasks[t].input + [p]))
    .(parcels := m.parcels[p := m.parcels[p].(identity := m.currentIdentity)], queued := m.queued + 1,
      current := Some(next))
  }

  function Release(m: Machine, i: nat, identity: nat): Machine
    requires |m.table| == NUM_TYPES && identity < NUM_TYPES && m.table[identity] < |m.tasks| && i < |m.tasks|
  {
    var t := m.table[identity];
    WithTask(m, t, m.tasks[t].(holding := false)).(current := Some(Preferred(m, t, i)))
  }

  /** The next letters of the alphabet, after count of them, from A again after Z. */
  function Letters(count: int, n: nat): (r: (seq<int>, int))
    requires count >= 0
    ensures |r.0| == n && r.1 >= 0 && forall i: nat :: i < n ==> r.0[i] >= 65
  {
    if n == 0 then ([], count)
    else
      var (s, c) := Letters(count, n - 1);
      var d := if c + 1 > 26 then 1 else c + 1;
      (s + [65 + d - 1], d)
  }

  function RunDevice(m: Machine, i: nat, work: Option<nat>): Machine
    requires WellFormed(m) && i < |m.tasks| && m.tasks[i].role.Device?
  {
    var pending := m.tasks[i].role.pending;
    match work
    case None =>
      if pending.None? then MarkWaiting(m, i)
      else
        assert pending.value in Slots(m.tasks[i]);
        var m1 := WithRole(m, i, Device(None));
        RoleKept(m, i, Device(None));
        Queue(m1, i, pending.value)
    case Some(w) => HoldSelf(WithRole(m, i, Device(Some(w))), i)
  }

  /** A handler takes a packet by its kind, then forwards a finished work packet or fills a device packet. */
  function RunHandler(m: Machine, i: nat, work: Option<nat>): Machine
    requires WellFormed(m) && i < |m.tasks| && m.tasks[i].role.Handler? && (work.Some? ==> work.value < |m.parcels|)
  {
    var r := Received(m, m.tasks[i].role, work);
    ReceivedKept(m, i, work);
    RoleKept(m, i, r);
    var m1 := WithRole(m, i, r);
    if r.work == [] then MarkWaiting(m1, i)
    else
      assert r.work[0] in Slots(m1.tasks[i]);
      var w := r.work[0];
      var count := m1.parcels[w].datum;
      if count >= DATA_SIZE then
        HandledKept(m, i, work);
        RoleKept(m1, i, r.(work := r.work[1..]));
        Queue(WithRole(m1, i, r.(work := r.work[1..])), i, w)
      else if r.device == [] then MarkWaiting(m1, i)
      else
        assert r.device[0] in Slots(m1.tasks[i]);
        var d := r.device[0];
        HandledKept(m, i, work);
        RoleKept(m1, i, r.(device := r.device[1..]));
        var m2 := Filled(WithRole(m1, i, r.(device := r.device[1..])), w, d, count);
        Queue(m2, i, d)
  }

  function Received(m: Machine, r: Role, work: Option<nat>): (r': Role)
    requires r.Handler? && (work.Some? ==> work.value < |m.parcels|)
    ensures r'.Handler?
  {
    match work
    case None => r
    case Some(w) =>
      if m.parcels[w].kind == WORK_PACKET_KIND then r.(work := r.work + [w]) else r.(device := r.device + [w])
  }

  /** The device packet d takes the next item of work packet w. */
  function Filled(m: Machine, w: nat, d: nat, count: int): (m': Machine)
    requires WellFormed(m) && w < |m.parcels| && d < |m.parcels| && 0 <= count < DATA_SIZE
    ensures WellFormed(m')
  {
    assert ParcelOk(m.parcels[w]);
    var ps := m.parcels[d := m.parcels[d].(datum := m.parcels[w].data[count])];
    m.(parcels := ps[w := ps[w].(datum := count + 1)])
  }

  function RunIdle(m: Machine, i: nat): Machine
    requires WellFormed(m) && i < |m.tasks| && m.tasks[i].role.Idle?
  {
    var r := m.tasks[i].role;
    var c := r.count - 1;
    if c == 0 then HoldSelf(WithRole(m, i, Idle(r.control, c)), i)
    else if r.control % 2 == 0 then Release(WithRole(m, i, Idle(r.control / 2, c)), i, DEVICE_A)
    else Release(WithRole(m, i, Idle(Xor(r.control / 2, 53256), c)), i, DEVICE_B)
  }

  function RunWorker(m: Machine, i: nat, work: Option<nat>): Machine
    requires WellFormed(m) && i < |m.tasks| && m.tasks[i].role.Worker? && (work.Some? ==> work.value < |m.parcels|)
  {
    match work
    case None => MarkWaiting(m, i)
    case Some(w) =>
      var r := m.tasks[i].role;
      var dest := if r.destination == HANDLER_A then HANDLER_B else HANDLER_A;
      assert TaskOk(m.tasks[i], i, |m.parcels|);
      var (letters, count) := Letters(r.count, DATA_SIZE);
      var m1 := WithRole(m, i,
          Worker(dest, count)).(parcels := m.parcels[w := Parcel(dest, m.parcels[w].kind, 0, letters)]);
      WorkerKept(m, i, Worker(dest, count), w, Parcel(dest, m.parcels[w].kind, 0, letters));
      Queue(m1, i, w)
  }

  lemma WorkerKept(m: Machine, i: nat, r: Role, w: nat, p: Parcel)
    requires WellFormed(m) && i < |m.tasks| && r.Worker? && r.count >= 0 && w < |m.parcels| && ParcelOk(p)
    ensures WellFormed(WithRole(m, i, r).(parcels := m.parcels[w := p]))
  {
    RoleKept(m, i, r);
  }

  function RunFunction(m: Machine, i: nat, work: Option<nat>): Machine
    requires WellFormed(m) && i < |m.tasks| && (work.Some? ==> work.value < |m.parcels|)
  {
    match m.tasks[i].role
    case Device(_) => RunDevice(m, i, work)
    case Handler(_, _) => RunHandler(m, i, work)
    case Idle(_, _) => RunIdle(m, i)
    case Worker(_, _) => RunWorker(m, i, work)
  }

  /** A waiting task with a packet takes it and stops waiting. */
  function Taken(m: Machine, i: nat): Machine
    requires i < |m.tasks| && m.tasks[i].input != []
  {
    WithTask(m, i, m.tasks[i].(input := m.tasks[i].input[1..], waiting := false, holding := false))
  }

  function RunTask(m: Machine, i: nat): Machine
    requires WellFormed(m) && i < |m.tasks|
  {
    if WaitingWithPacket(m.tasks[i]) then
      TakenKept(m, i);
      RunFunction(Taken(m, i), i, Some(m.tasks[i].input[0]))
    else RunFunction(m, i, None)
  }

  /** One turn of the scheduler's loop. */
  function Next(m: Machine): Machine
    requires WellFormed(m) && m.current.Some?
  {
    var i := m.current.value;
    if HoldingOrWaiting(m.tasks[i]) then m.(current := m.tasks[i].link)
    else
      assert TaskOk(m.tasks[i], i, |m.parcels|);
      RunTask(m.(currentIdentity := m.tasks[i].identity), i)
  }

  // ── Steps keep states well-formed ─────────────────────────────────

  lemma RoleKept(m: Machine, i: nat, r: Role)
    requires WellFormed(m) && i < |m.tasks|
    requires forall x :: x in Kept(r) ==> x < |m.parcels|
    requires r.Device? && m.tasks[i].waiting ==> r.pending.None?
    requires r.Worker? ==> r.count >= 0
    requires r.Idle? ==> !m.tasks[i].waiting
    ensures WellFormed(WithRole(m, i, r))
  {
    var t := m.tasks[i];
    assert TaskOk(t, i, |m.parcels|);
    assert forall x :: x in Slots(t.(role := r)) ==> x in Slots(t) || x in Kept(r);
    assert TaskOk(t.(role := r), i, |m.parcels|);
  }

  lemma ReceivedKept(m: Machine, i: nat, work: Option<nat>)
    requires WellFormed(m) && i < |m.tasks| && m.tasks[i].role.Handler? && (work.Some? ==> work.value < |m.parcels|)
    ensures forall x :: x in Kept(Received(m, m.tasks[i].role, work)) ==> x < |m.parcels|
  {
    var t := m.tasks[i];
    assert TaskOk(t, i, |m.parcels|);
    forall x | x in Kept(Received(m, t.role, work)) ensures x < |m.parcels| {
      assert x in Slots(t) || Some(x) == work;
    }
  }

  lemma HandledKept(m: Machine, i: nat, work: Option<nat>)
    requires WellFormed(m) && i < |m.tasks| && m.tasks[i].role.Handler? && (work.Some? ==> work.value < |m.parcels|)
    ensures var r := Received(m, m.tasks[i].role, work);
            && (r.work != [] ==> forall x :: x in Kept(r.(work := r.work[1..])) ==> x < |m.parcels|)
            && (r.device != [] ==> forall x :: x in Kept(r.(device := r.device[1..])) ==> x < |m.parcels|)
  {
    ReceivedKept(m, i, work);
    var r := Received(m, m.tasks[i].role, work);
    assert r.work != [] ==> forall x :: x in Kept(r.(work := r.work[1..])) ==> x in Kept(r);
    assert r.device != [] ==> forall x :: x in Kept(r.(device := r.device[1..])) ==> x in Kept(r);
  }

  lemma TakenKept(m: Machine, i: nat)
    requires WellFormed(m) && i < |m.tasks| && m.tasks[i].input != []
    ensures WellFormed(Taken(m, i)) && m.tasks[i].input[0] < |m.parcels|
  {
    assert TaskOk(m.tasks[i], i, |m.parcels|);
    var t := m.tasks[i];
    assert t.input[0] in Slots(t);
    var t' := t.(input := t.input[1..], waiting := false, holding := false);
    assert forall x :: x in Slots(t') ==> x in Slots(t);
    assert TaskOk(t', i, |m.parcels|);
  }
}
