/** What every step of the scheduler keeps: well-formedness, and every packet in its one place. */
module RichardsLaws {
  import opened Options
  import opened RichardsMachine
  import opened Words

  // ── Where the packets are ─────────────────────────────────────────

  ghost function Gather(tasks: seq<Task>): multiset<nat>
  {
    if tasks == [] then multiset{} else Gather(tasks[..|tasks| - 1]) + multiset(Slots(tasks[|tasks| - 1]))
  }

  /** All packets held anywhere, with multiplicity. */
  ghost function Places(m: Machine): multiset<nat> { Gather(m.tasks) }

  /** Every packet is in exactly one place. */
  ghost predicate EachOnce(m: Machine)
  {
    forall p: nat :: Places(m)[p] == if p < |m.parcels| then 1 else 0
  }

  lemma SumLast(a: multiset<nat>, b: multiset<nat>, p: multiset<nat>, q: multiset<nat>, z: multiset<nat>)
    requires a + p == b + q
    ensures a + z + p == b + z + q && z + a + p == z + b + q
  {
    assert a + z + p == a + p + z && b + z + q == b + q + z;
    assert z + a + p == z + (a + p) && z + b + q == z + (b + q);
  }

  lemma {:induction false} GatherUpdate(tasks: seq<Task>, i: nat, t: Task)
    requires i < |tasks|
    ensures Gather(tasks[i := t]) + multiset(Slots(tasks[i])) == Gather(tasks) + multiset(Slots(t))
  {
    hide Slots;
    var n := |tasks| - 1;
    if i < n {
      GatherUpdate(tasks[..n], i, t);
      assert tasks[i := t][..n] == tasks[..n][i := t] && tasks[i := t][n] == tasks[n];
      SumLast(Gather(tasks[..n][i := t]), Gather(tasks[..n]), multiset(Slots(tasks[i])), multiset(Slots(t)),
              multiset(Slots(tasks[n])));
    } else {
      assert tasks[i := t][..n] == tasks[..n] && tasks[i := t][n] == t;
    }
  }

  lemma {:induction false} GatherHas(tasks: seq<Task>, i: nat, p: nat)
    requires i < |tasks|
    ensures multiset(Slots(tasks[i]))[p] <= Gather(tasks)[p]
  {
    hide Slots;
    if i < |tasks| - 1 { GatherHas(tasks[..|tasks| - 1], i, p); }
  }

  lemma {:induction false} GatherTwo(tasks: seq<Task>, i: nat, j: nat, p: nat)
    requires i < j < |tasks|
    ensures multiset(Slots(tasks[i]))[p] + multiset(Slots(tasks[j]))[p] <= Gather(tasks)[p]
  {
    hide Slots;
    var n := |tasks| - 1;
    if j < n { GatherTwo(tasks[..n], i, j, p); } else { GatherHas(tasks[..n], i, p); }
  }

  lemma Cancel(a: multiset<nat>, b: multiset<nat>, s: multiset<nat>, t: multiset<nat>, p: multiset<nat>)
    requires a + s == b + t && t + p == s + p
    ensures a == b
  {
    forall x ensures a[x] == b[x] {
      assert (a + s)[x] == (b + t)[x] && (t + p)[x] == (s + p)[x];
    }
  }

  /** A task that gains packet p and loses nothing adds p to the places. */
  lemma PlacesWith(m: Machine, i: nat, t: Task, p: multiset<nat>, q: multiset<nat>)
    requires i < |m.tasks| && multiset(Slots(t)) + p == multiset(Slots(m.tasks[i])) + q
    ensures Places(WithTask(m, i, t)) + p == Places(m) + q
    ensures p == q ==> Places(WithTask(m, i, t)) == Places(m)
  {
    hide Slots;
    GatherUpdate(m.tasks, i, t);
    if p == q { Cancel(Places(WithTask(m, i, t)), Places(m), multiset(Slots(m.tasks[i])), multiset(Slots(t)), p); }
    forall x ensures (Places(WithTask(m, i, t)) + p)[x] == (Places(m) + q)[x] {
      var a, b := multiset(Slots(t)), multiset(Slots(m.tasks[i]));
      assert (Gather(m.tasks[i := t]) + b)[x] == (Gather(m.tasks) + a)[x];
      assert (a + p)[x] == (b + q)[x];
    }
  }

  /** The same packets and the same tasks in the same order of precedence. */
  ghost predicate SameShape(m: Machine, m': Machine)
  {
    && |m'.parcels| == |m.parcels| && |m'.tasks| == |m.tasks| && m'.table == m.table
    && forall i: nat :: i < |m.tasks| ==> SameTask(m.tasks[i], m'.tasks[i])
  }

  ghost predicate SameTask(t: Task, t': Task)
  {
    t'.link == t.link && t'.identity == t.identity && t'.priority == t.priority
  }

  lemma ShapeTrans(a: Machine, b: Machine, c: Machine)
    requires SameShape(a, b) && SameShape(b, c)
    ensures SameShape(a, c)
  {
    forall i: nat | i < |a.tasks| ensures SameTask(a.tasks[i], c.tasks[i]) {
      assert SameTask(a.tasks[i], b.tasks[i]) && SameTask(b.tasks[i], c.tasks[i]);
    }
  }

  // ── Queueing a packet ─────────────────────────────────────────────

  /** Replacing one task by a sound one of the same precedence. */
  lemma TaskChanged(m: Machine, i: nat, t: Task, current: Option<nat>, held: nat)
    requires WellFormed(m) && i < |m.tasks| && TaskOk(t, i, |m.parcels|) && SameTask(m.tasks[i], t)
    requires current.Some? ==> current.value < |m.tasks|
    ensures var m' := WithTask(m, i, t).(current := current, held := held); WellFormed(m') && SameShape(m, m')
  {
    hide TaskOk;
  }

  lemma ParcelChanged(m: Machine, p: nat, parcel: Parcel, queued: nat)
    requires WellFormed(m) && p < |m.parcels| && ParcelOk(parcel)
    ensures var m' := m.(parcels := m.parcels[p := parcel], queued := queued); WellFormed(m') && SameShape(m, m')
  {
    hide TaskOk, ParcelOk;
  }

  lemma QueueKept(m: Machine, i: nat, p: nat)
    requires WellFormed(m) && i < |m.tasks| && p < |m.parcels|
    ensures WellFormed(Queue(m, i, p)) && Places(Queue(m, i, p)) == Places(m) + multiset{p}
    ensures SameShape(m, Queue(m, i, p))
  {
    assert ParcelOk(m.parcels[p]);
    var t := m.table[m.parcels[p].identity];
    var k := m.tasks[t];
    var k' := k.(input := k.input + [p]);
    InputOk(k, t, |m.parcels|, p);
    hide WellFormed, Places, Slots, TaskOk, ParcelOk, SameShape;
    PlacesWith(m, t, k', multiset{}, multiset{p});
    TaskChanged(m, t, k', Queue(m, i, p).current, m.held);
    var m1 := WithTask(m, t, k').(current := Queue(m, i, p).current, held := m.held);
    SameTasks(m, t, k', m1);
    ParcelChanged(m1, p, m.parcels[p].(identity := m.currentIdentity), m.queued + 1);
    QueueIs(m, i, p, m1);
    SamePlaces(WithTask(m, t, k'), Queue(m, i, p));
    ShapeTrans(m, m1, Queue(m, i, p));
  }

  lemma SameTasks(m: Machine, t: nat, k: Task, m1: Machine)
    requires WellFormed(m) && t < |m.tasks| && m1.tasks == m.tasks[t := k] && m1.parcels == m.parcels
    requires m1.currentIdentity == m.currentIdentity
    ensures m.currentIdentity < NUM_TYPES && forall p: nat :: p < |m.parcels| ==>
        ParcelOk(m1.parcels[p].(identity := m.currentIdentity))
  {
    forall p: nat | p < |m.parcels| ensures ParcelOk(m1.parcels[p].(identity := m.currentIdentity)) {
      assert ParcelOk(m.parcels[p]);
    }
  }

  lemma QueueIs(m: Machine, i: nat, p: nat, m1: Machine)
    requires WellFormed(m) && i < |m.tasks| && p < |m.parcels|
    requires var t := m.table[m.parcels[p].identity];
             ParcelOk(m.parcels[p]) && t < |m.tasks|
             && m1 == WithTask(m, t, m.tasks[t].(input := m.tasks[t].input + [p])).(current := Queue(m, i, p).current,
                held := m.held)
    ensures Queue(m, i, p) == m1.(parcels := m1.parcels[p := m.parcels[p].(identity := m.currentIdentity)],
        queued := m.queued + 1)
  {}

  lemma InputOk(k: Task, t: nat, n: nat, p: nat)
    requires TaskOk(k, t, n) && p < n
    ensures var k' := k.(input := k.input + [p]);
            TaskOk(k', t, n) && multiset(Slots(k')) == multiset(Slots(k)) + multiset{p}
  {
    var k' := k.(input := k.input + [p]);
    assert Slots(k') == k.input + ([p] + Kept(k.role));
    assert forall x :: x in Slots(k') ==> x in Slots(k) || x == p;
  }

  /** A role that keeps other packets changes the places by the difference. */
  lemma RolePlaces(m: Machine, i: nat, r: Role, p: multiset<nat>, q: multiset<nat>)
    requires i < |m.tasks| && multiset(Kept(r)) + p == multiset(Kept(m.tasks[i].role)) + q
    ensures Places(WithRole(m, i, r)) + p == Places(m) + q && SameShape(m, WithRole(m, i, r))
    ensures p == q ==> Places(WithRole(m, i, r)) == Places(m)
  {
    hide Kept;
    var t := m.tasks[i];
    assert multiset(Slots(t.(role := r))) == multiset(t.input) + multiset(Kept(r));
    assert multiset(Slots(t)) == multiset(t.input) + multiset(Kept(t.role));
    SumLast(multiset(Kept(r)), multiset(Kept(t.role)), p, q, multiset(t.input));
    PlacesWith(m, i, t.(role := r), p, q);
  }

  lemma FlagsOk(m: Machine, i: nat, t: Task)
    requires WellFormed(m) && i < |m.tasks| && t.input == m.tasks[i].input && t.role == m.tasks[i].role
    requires SameTask(m.tasks[i], t)
    requires t.waiting ==> !t.role.Idle? && (t.role.Device? ==> t.role.pending.None?)
    ensures TaskOk(t, i, |m.parcels|) && Slots(t) == Slots(m.tasks[i])
  {
    assert TaskOk(m.tasks[i], i, |m.parcels|);
    assert Slots(t) == Slots(m.tasks[i]);
  }

  lemma FlagsKept(m: Machine, i: nat, t: Task, current: Option<nat>, held: nat)
    requires WellFormed(m) && i < |m.tasks| && t.input == m.tasks[i].input && t.role == m.tasks[i].role
    requires SameTask(m.tasks[i], t)
    requires t.waiting ==> !t.role.Idle? && (t.role.Device? ==> t.role.pending.None?)
    requires current.Some? ==> current.value < |m.tasks|
    ensures var m' := WithTask(m, i, t).(current := current, held := held);
            WellFormed(m') && Places(m') == Places(m) && SameShape(m, m')
  {
    hide WellFormed, Places, Slots, TaskOk, SameShape;
    FlagsOk(m, i, t);
    PlacesWith(m, i, t, multiset{}, multiset{});
    TaskChanged(m, i, t, current, held);
    SamePlaces(WithTask(m, i, t), WithTask(m, i, t).(current := current, held := held));
  }

  // ── Every kind of task ────────────────────────────────────────────

  /** A packet in hand; none is the empty multiset. */
  ghost function InHand(work: Option<nat>): multiset<nat> { if work.Some? then multiset{work.value} else multiset{} }

  /** What the running task may assume: with a packet in hand it no longer waits, and a device is empty. */
  ghost predicate Runnable(m: Machine, i: nat, work: Option<nat>)
  {
    && WellFormed(m) && i < |m.tasks| && !m.tasks[i].holding
    && (work.Some? ==> work.value < |m.parcels| && !m.tasks[i].waiting
                       && !m.tasks[i].role.Idle? && (m.tasks[i].role.Device? ==> m.tasks[i].role.pending.None?))
  }

  lemma DeviceKept(m: Machine, i: nat, work: Option<nat>)
    requires Runnable(m, i, work) && m.tasks[i].role.Device?
    ensures var m' := RunDevice(m, i, work);
            WellFormed(m') && SameShape(m, m') && Places(m') == Places(m) + InHand(work)
  {
    hide WellFormed, Places, Slots, Queue, TaskOk;
    var t := m.tasks[i];
    match work
    case None =>
      if t.role.pending.None? {
        FlagsKept(m, i, t.(waiting := true), Some(i), m.held);
      } else {
        PendingKnown(m, i);
        RoleKept(m, i, Device(None));
        RolePlaces(m, i, Device(None), multiset{t.role.pending.value}, multiset{});
        var m1 := WithRole(m, i, Device(None));
        QueueKept(m1, i, t.role.pending.value);
        ShapeTrans(m, m1, Queue(m1, i, t.role.pending.value));
      }
    case Some(w) =>
      RoleKept(m, i, Device(Some(w)));
      RolePlaces(m, i, Device(Some(w)), multiset{}, multiset{w});
      LinkKnown(m, i);
      var m1 := WithRole(m, i, Device(Some(w)));
      FlagsKept(m1, i, m1.tasks[i].(holding := true), t.link, m.held + 1);
      ShapeTrans(m, m1, HoldSelf(m1, i));
  }

  lemma PendingKnown(m: Machine, i: nat)
    requires WellFormed(m) && i < |m.tasks| && m.tasks[i].role.Device? && m.tasks[i].role.pending.Some?
    ensures m.tasks[i].role.pending.value < |m.parcels|
  {
    assert TaskOk(m.tasks[i], i, |m.parcels|);
    assert m.tasks[i].role.pending.value in Slots(m.tasks[i]);
  }

  lemma LinkKnown(m: Machine, i: nat)
    requires WellFormed(m) && i < |m.tasks|
    ensures m.tasks[i].link.Some? ==> m.tasks[i].link.value < i
    ensures |m.table| == NUM_TYPES && forall d: nat :: d < NUM_TYPES ==> m.table[d] < |m.tasks|
    ensures m.tasks[i].role.Worker? ==> m.tasks[i].role.count >= 0
    ensures m.tasks[i].role.Device? && m.tasks[i].waiting ==> m.tasks[i].role.pending.None?
    ensures m.tasks[i].role.Idle? ==> !m.tasks[i].waiting
    ensures m.tasks[i].identity < NUM_TYPES
  {
    assert TaskOk(m.tasks[i], i, |m.parcels|);
  }

  lemma FilledKept(m: Machine, w: nat, d: nat, count: int)
    requires WellFormed(m) && w < |m.parcels| && d < |m.parcels| && 0 <= count < DATA_SIZE
    ensures Filled(m, w, d, count).tasks == m.tasks && SameShape(m, Filled(m, w, d, count))
  {}

  lemma ReceivedPlaces(m: Machine, r: Role, work: Option<nat>)
    requires r.Handler? && (work.Some? ==> work.value < |m.parcels|)
    ensures multiset(Kept(Received(m, r, work))) == multiset(Kept(r)) + InHand(work)
  {
    if work.Some? && m.parcels[work.value].kind == WORK_PACKET_KIND {
      assert r.work + [work.value] + r.device == r.work + ([work.value] + r.device);
    } else if work.Some? {
      assert r.work + (r.device + [work.value]) == r.work + r.device + [work.value];
    }
  }

  lemma WorkRest(r: Role)
    requires r.Handler? && r.work != []
    ensures multiset(Kept(r.(work := r.work[1..]))) + multiset{r.work[0]} == multiset(Kept(r))
  {
    assert r.work == [r.work[0]] + r.work[1..];
  }

  lemma DeviceRest(r: Role)
    requires r.Handler? && r.device != []
    ensures multiset(Kept(r.(device := r.device[1..]))) + multiset{r.device[0]} == multiset(Kept(r))
  {
    assert r.device == [r.device[0]] + r.device[1..];
  }

  lemma HandlerKept(m: Machine, i: nat, work: Option<nat>)
    requires Runnable(m, i, work) && m.tasks[i].role.Handler?
    ensures var m' := RunHandler(m, i, work);
            WellFormed(m') && SameShape(m, m') && Places(m') == Places(m) + InHand(work)
  {
    hide WellFormed, Places, Kept, Slots, Queue, Filled;
    var r := Received(m, m.tasks[i].role, work);
    ReceivedKept(m, i, work);
    RoleKept(m, i, r);
    ReceivedPlaces(m, m.tasks[i].role, work);
    RolePlaces(m, i, r, multiset{}, InHand(work));
    var m1 := WithRole(m, i, r);
    if r.work == [] {
      FlagsKept(m1, i, m1.tasks[i].(waiting := true), Some(i), m1.held);
      ShapeTrans(m, m1, MarkWaiting(m1, i));
    } else {
      HandlerHeads(m1, i, r);
      var w := r.work[0];
      var count := m1.parcels[w].datum;
      HandledKept(m, i, work);
      if count >= DATA_SIZE {
        RoleKept(m1, i, r.(work := r.work[1..]));
        WorkRest(r);
        RolePlaces(m1, i, r.(work := r.work[1..]), multiset{w}, multiset{});
        var m2 := WithRole(m1, i, r.(work := r.work[1..]));
        QueueKept(m2, i, w);
        ShapeTrans(m, m1, m2);
        ShapeTrans(m, m2, Queue(m2, i, w));
      } else if r.device == [] {
        FlagsKept(m1, i, m1.tasks[i].(waiting := true), Some(i), m1.held);
        ShapeTrans(m, m1, MarkWaiting(m1, i));
      } else {
        var d := r.device[0];
        RoleKept(m1, i, r.(device := r.device[1..]));
        DeviceRest(r);
        RolePlaces(m1, i, r.(device := r.device[1..]), multiset{d}, multiset{});
        var m2 := WithRole(m1, i, r.(device := r.device[1..]));
        FilledKept(m2, w, d, count);
        var m3 := Filled(m2, w, d, count);
        SamePlaces(m2, m3);
        QueueKept(m3, i, d);
        ShapeTrans(m, m1, m2);
        ShapeTrans(m, m2, m3);
        ShapeTrans(m, m3, Queue(m3, i, d));
      }
    }
  }

  lemma SamePlaces(m: Machine, m': Machine)
    requires m.tasks == m'.tasks
    ensures Places(m) == Places(m')
  {}

  lemma HandlerHeads(m: Machine, i: nat, r: Role)
    requires WellFormed(m) && i < |m.tasks| && m.tasks[i].role == r && r.Handler? && r.work != []
    ensures r.work[0] < |m.parcels| && m.parcels[r.work[0]].datum >= 0 && |m.parcels[r.work[0]].data| == DATA_SIZE
    ensures r.device != [] ==> r.device[0] < |m.parcels|
  {
    var t := m.tasks[i];
    assert TaskOk(t, i, |m.parcels|);
    assert r.work[0] in Slots(t);
    assert ParcelOk(m.parcels[r.work[0]]);
    if r.device != [] { assert r.device[0] in Slots(t); }
  }

  lemma IdleKept(m: Machine, i: nat)
    requires Runnable(m, i, None) && m.tasks[i].role.Idle?
    ensures WellFormed(RunIdle(m, i)) && Places(RunIdle(m, i)) == Places(m) && SameShape(m, RunIdle(m, i))
  {
    hide WellFormed, Places, Slots, TaskOk, Xor;
    var r := m.tasks[i].role;
    var c := r.count - 1;
    var control := if c == 0 then r.control
                   else if r.control % 2 == 0 then r.control / 2 else Xor(r.control / 2, 53256);
    LinkKnown(m, i);
    RoleKept(m, i, Idle(control, c));
    RolePlaces(m, i, Idle(control, c), multiset{}, multiset{});
    var m1 := WithRole(m, i, Idle(control, c));
    if c == 0 {
      FlagsKept(m1, i, m1.tasks[i].(holding := true), m1.tasks[i].link, m1.held + 1);
      ShapeTrans(m, m1, HoldSelf(m1, i));
    } else {
      var device := if r.control % 2 == 0 then DEVICE_A else DEVICE_B;
      var t := m1.table[device];
      LinkKnown(m1, t);
      FlagsKept(m1, t, m1.tasks[t].(holding := false), Some(Preferred(m1, t, i)), m1.held);
      ShapeTrans(m, m1, Release(m1, i, device));
    }
  }

  lemma WorkerRuns(m: Machine, i: nat, work: Option<nat>)
    requires Runnable(m, i, work) && m.tasks[i].role.Worker?
    ensures var m' := RunWorker(m, i, work);
            WellFormed(m') && SameShape(m, m') && Places(m') == Places(m) + InHand(work)
  {
    hide WellFormed, Places, Slots, TaskOk, Letters, Queue;
    var r := m.tasks[i].role;
    LinkKnown(m, i);
    match work
    case None => FlagsKept(m, i, m.tasks[i].(waiting := true), Some(i), m.held);
    case Some(w) =>
      var dest := if r.destination == HANDLER_A then HANDLER_B else HANDLER_A;
      var (letters, count) := Letters(r.count, DATA_SIZE);
      var p := Parcel(dest, m.parcels[w].kind, 0, letters);
      WorkerKept(m, i, Worker(dest, count), w, p);
      RolePlaces(m, i, Worker(dest, count), multiset{}, multiset{});
      var m0 := WithRole(m, i, Worker(dest, count));
      var m1 := m0.(parcels := m.parcels[w := p]);
      SamePlaces(m0, m1);
      ShapeTrans(m, m0, m1);
      QueueKept(m1, i, w);
      ShapeTrans(m, m1, Queue(m1, i, w));
  }

  // ── One turn, and any number of them ──────────────────────────────

  lemma FunctionKept(m: Machine, i: nat, work: Option<nat>)
    requires Runnable(m, i, work)
    ensures var m' := RunFunction(m, i, work);
            WellFormed(m') && SameShape(m, m') && Places(m') == Places(m) + InHand(work)
  {
    hide WellFormed, Places;
    match m.tasks[i].role
    case Device(_) => DeviceKept(m, i, work);
    case Handler(_, _) => HandlerKept(m, i, work);
    case Idle(_, _) =>
      IdleKept(m, i);
      assert Places(m) + InHand(work) == Places(m);
    case Worker(_, _) => WorkerRuns(m, i, work);
  }

  lemma TakenPlaces(m: Machine, i: nat)
    requires WellFormed(m) && i < |m.tasks| && m.tasks[i].input != []
    ensures Places(Taken(m, i)) + multiset{m.tasks[i].input[0]} == Places(m) && SameShape(m, Taken(m, i))
  {
    var t := m.tasks[i];
    var t' := t.(input := t.input[1..], waiting := false, holding := false);
    assert Slots(t) == [t.input[0]] + Slots(t');
    PlacesWith(m, i, t', multiset{t.input[0]}, multiset{});
  }

  /** One turn keeps the state well-formed and moves no packet out of the system or into it twice. */
  lemma NextKept(m: Machine)
    requires WellFormed(m) && m.current.Some?
    ensures WellFormed(Next(m)) && Places(Next(m)) == Places(m) && SameShape(m, Next(m))
  {
    hide Places, RunFunction, TaskOk, Slots;
    var i := m.current.value;
    var t := m.tasks[i];
    LinkKnown(m, i);
    if HoldingOrWaiting(t) {
      SamePlaces(m, m.(current := t.link));
    } else {
      var m1 := m.(currentIdentity := t.identity);
      SamePlaces(m, m1);
      if WaitingWithPacket(t) {
        TakenKept(m1, i);
        TakenPlaces(m1, i);
        FunctionKept(Taken(m1, i), i, Some(t.input[0]));
        ShapeTrans(m, Taken(m1, i), Next(m));
      } else {
        FunctionKept(m1, i, None);
        assert Places(m1) + InHand(None) == Places(m1);
      }
    }
  }

  // ── The counters ──────────────────────────────────────────────────

  /** Packets that wait in inputs. */
  ghost function Queued(tasks: seq<Task>): nat
  {
    if tasks == [] then 0 else Queued(tasks[..|tasks| - 1]) + |tasks[|tasks| - 1].input|
  }

  lemma {:induction false} QueuedWith(tasks: seq<Task>, i: nat, t: Task)
    requires i < |tasks|
    ensures Queued(tasks[i := t]) + |tasks[i].input| == Queued(tasks) + |t.input|
  {
    var n := |tasks| - 1;
    if i < n {
      QueuedWith(tasks[..n], i, t);
      assert tasks[i := t][..n] == tasks[..n][i := t] && tasks[i := t][n] == tasks[n];
    } else {
      assert tasks[i := t][..n] == tasks[..n] && tasks[i := t][n] == t;
    }
  }

  /** The first counter counts the packets put into inputs, the second the tasks that went on hold. */
  ghost predicate Counted(m: Machine, m': Machine, i: nat, taken: nat)
    requires i < |m.tasks|
  {
    && m.queued <= m'.queued <= m.queued + 1
    && Queued(m'.tasks) + taken == Queued(m.tasks) + (m'.queued - m.queued)
    && |m'.tasks| == |m.tasks|
    && m'.held == m.held + if m'.tasks[i].holding && !m.tasks[i].holding then 1 else 0
  }

  /** Task i becomes t, and then packet p, if any, is queued. */
  lemma QueuedTurn(m: Machine, i: nat, t: Task, taken: nat)
    requires i < |m.tasks| && |t.input| + taken == |m.tasks[i].input|
    ensures Queued(m.tasks[i := t]) + taken == Queued(m.tasks)
  {
    QueuedWith(m.tasks, i, t);
  }

  lemma QueueCounted(m: Machine, m1: Machine, i: nat, p: nat, taken: nat)
    requires WellFormed(m1) && i < |m.tasks| == |m1.tasks| && p < |m1.parcels|
    requires Queued(m1.tasks) + taken == Queued(m.tasks) && m1.queued == m.queued && m1.held == m.held
    requires m1.tasks[i].holding ==> m.tasks[i].holding
    ensures Counted(m, Queue(m1, i, p), i, taken)
  {
    assert ParcelOk(m1.parcels[p]);
    var t := m1.table[m1.parcels[p].identity];
    hide WellFormed;
    QueuedWith(m1.tasks, t, m1.tasks[t].(input := m1.tasks[t].input + [p]));
  }

  lemma DeviceCounted(m: Machine, i: nat, work: Option<nat>)
    requires Runnable(m, i, work) && m.tasks[i].role.Device?
    ensures Counted(m, RunDevice(m, i, work), i, 0)
  {
    hide WellFormed, Queue, Queued, TaskOk, Slots;
    var t := m.tasks[i];
    match work
    case None =>
      if t.role.pending.None? {
        QueuedTurn(m, i, t.(waiting := true), 0);
      } else {
        PendingKnown(m, i);
        RoleKept(m, i, Device(None));
        QueuedTurn(m, i, t.(role := Device(None)), 0);
        QueueCounted(m, WithRole(m, i, Device(None)), i, t.role.pending.value, 0);
      }
    case Some(w) =>
      var t' := t.(role := Device(Some(w)), holding := true);
      QueuedTurn(m, i, t', 0);
      assert m.tasks[i := t.(role := Device(Some(w)))][i := t'] == m.tasks[i := t'];
  }

  lemma HandlerCounted(m: Machine, i: nat, work: Option<nat>)
    requires Runnable(m, i, work) && m.tasks[i].role.Handler?
    ensures Counted(m, RunHandler(m, i, work), i, 0)
  {
    hide WellFormed, Queue, Queued, TaskOk, Slots, Kept, Filled;
    var t, r := m.tasks[i], Received(m, m.tasks[i].role, work);
    ReceivedKept(m, i, work);
    RoleKept(m, i, r);
    var m1 := WithRole(m, i, r);
    QueuedTurn(m, i, t.(role := r), 0);
    if r.work == [] {
      QueuedTurn(m1, i, m1.tasks[i].(waiting := true), 0);
    } else {
      HandlerHeads(m1, i, r);
      HandledKept(m, i, work);
      var w := r.work[0];
      var count := m1.parcels[w].datum;
      if count >= DATA_SIZE {
        var r' := r.(work := r.work[1..]);
        RoleKept(m1, i, r');
        QueuedTurn(m1, i, m1.tasks[i].(role := r'), 0);
        QueueCounted(m, WithRole(m1, i, r'), i, w, 0);
      } else if r.device == [] {
        QueuedTurn(m1, i, m1.tasks[i].(waiting := true), 0);
      } else {
        var r' := r.(device := r.device[1..]);
        RoleKept(m1, i, r');
        QueuedTurn(m1, i, m1.tasks[i].(role := r'), 0);
        FilledCounts(WithRole(m1, i, r'), w, r.device[0], count);
        QueueCounted(m, Filled(WithRole(m1, i, r'), w, r.device[0], count), i, r.device[0], 0);
      }
    }
  }

  lemma FilledCounts(m: Machine, w: nat, d: nat, count: int)
    requires WellFormed(m) && w < |m.parcels| && d < |m.parcels| && 0 <= count < DATA_SIZE
    ensures var m' := Filled(m, w, d, count);
            m'.tasks == m.tasks && m'.queued == m.queued && m'.held == m.held && |m'.parcels| == |m.parcels|
  {}

  lemma IdleCounted(m: Machine, i: nat)
    requires Runnable(m, i, None) && m.tasks[i].role.Idle?
    ensures Counted(m, RunIdle(m, i), i, 0)
  {
    hide WellFormed, Queued, TaskOk, Xor;
    var r := m.tasks[i].role;
    var c := r.count - 1;
    var control := if c == 0 then r.control
                   else if r.control % 2 == 0 then r.control / 2 else Xor(r.control / 2, 53256);
    LinkKnown(m, i);
    RoleKept(m, i, Idle(control, c));
    var m1 := WithRole(m, i, Idle(control, c));
    QueuedTurn(m, i, m1.tasks[i], 0);
    var t := if c == 0 then i else m1.table[if r.control % 2 == 0 then DEVICE_A else DEVICE_B];
    QueuedTurn(m1, t, m1.tasks[t].(holding := c == 0), 0);
  }

  lemma WorkerCounted(m: Machine, i: nat, work: Option<nat>)
    requires Runnable(m, i, work) && m.tasks[i].role.Worker?
    ensures Counted(m, RunWorker(m, i, work), i, 0)
  {
    hide WellFormed, Queue, Queued, TaskOk, Letters;
    LinkKnown(m, i);
    match work
    case None => QueuedTurn(m, i, m.tasks[i].(waiting := true), 0);
    case Some(w) =>
      var dest := if m.tasks[i].role.destination == HANDLER_A then HANDLER_B else HANDLER_A;
      var (letters, count) := Letters(m.tasks[i].role.count, DATA_SIZE);
      var p := Parcel(dest, m.parcels[w].kind, 0, letters);
      WorkerKept(m, i, Worker(dest, count), w, p);
      var m1 := WithRole(m, i, Worker(dest, count)).(parcels := m.parcels[w := p]);
      QueuedTurn(m, i, m.tasks[i].(role := Worker(dest, count)), 0);
      QueueCounted(m, m1, i, w, 0);
  }

  /**
   * One turn: a packet is taken from the current task's input when it waits with one, a packet is put into an
   * input exactly when the first counter grows, and the second grows exactly when the current task goes on hold.
   */
  lemma NextCounted(m: Machine)
    requires WellFormed(m) && m.current.Some?
    ensures m.current.value < |m.tasks|
    ensures Counted(m, Next(m), m.current.value, if WaitingWithPacket(m.tasks[m.current.value]) then 1 else 0)
  {
    hide RunDevice, RunHandler, RunWorker, RunIdle, TaskOk, Slots, Queued;
    var i := m.current.value;
    var t := m.tasks[i];
    LinkKnown(m, i);
    if !HoldingOrWaiting(t) {
      var m1 := m.(currentIdentity := t.identity);
      var work := None;
      if WaitingWithPacket(t) {
        TakenKept(m1, i);
        QueuedTurn(m1, i, Taken(m1, i).tasks[i], 1);
        work := Some(t.input[0]);
        m1 := Taken(m1, i);
      }
      match t.role
      case Device(_) => DeviceCounted(m1, i, work);
      case Handler(_, _) => HandlerCounted(m1, i, work);
      case Idle(_, _) => IdleCounted(m1, i);
      case Worker(_, _) => WorkerCounted(m1, i, work);
    }
  }

  /** The state after at most n turns. */
  ghost function Run(m: Machine, n: nat): Machine
    requires WellFormed(m)
    decreases n
  {
    if n == 0 || m.current.None? then m
    else
      NextKept(m);
      Run(Next(m), n - 1)
  }

  /**
   * From any well-formed start, after any number of turns the state is well-formed, and each packet
   * is in exactly one place if it was so at the start.
   */
  lemma {:induction false} RunKept(m: Machine, n: nat)
    requires WellFormed(m)
    ensures WellFormed(Run(m, n)) && Places(Run(m, n)) == Places(m)
    ensures EachOnce(m) ==> EachOnce(Run(m, n))
    ensures SameShape(m, Run(m, n))
    decreases n
  {
    hide Next, Places;
    if n > 0 && m.current.Some? {
      NextKept(m);
      RunKept(Next(m), n - 1);
      ShapeTrans(m, Next(m), Run(Next(m), n - 1));
    }
  }
}
