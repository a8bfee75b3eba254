/**
 * Systems of the benchmark's kind come to an end: work packets pass between worker and handlers, device
 * packets between handlers and devices, and every idle task still has a count to run down.
 */
module RichardsEnds {
  import opened Options
  import opened RichardsLaws
  import opened RichardsLinks
  import opened RichardsMachine
  import opened Words

  // ── Packets where they belong ─────────────────────────────────────

  predicate IsHandler(d: nat) { d == HANDLER_A || d == HANDLER_B }

  predicate IsDevice(d: nat) { d == DEVICE_A || d == DEVICE_B }

  /** The identities a role may go by. */
  predicate GoesBy(d: nat, r: Role)
  {
    match r
    case Worker(_, _) => d == WORKER
    case Handler(_, _) => IsHandler(d)
    case Device(_) => IsDevice(d)
    case Idle(_, _) => true
  }

  /** The packets a role may hold: their kind, and the addressee they go on to. */
  predicate Fits(q: Parcel, r: Role)
  {
    match r
    case Worker(_, _) => q.kind == WORK_PACKET_KIND
    case Handler(_, _) =>
      (q.kind == WORK_PACKET_KIND && q.identity == WORKER) || (q.kind == DEVICE_PACKET_KIND && IsDevice(q.identity))
    case Device(_) => q.kind == DEVICE_PACKET_KIND && IsHandler(q.identity)
    case Idle(_, _) => false
  }

  ghost predicate OfKind(parcels: seq<Parcel>, s: seq<nat>, kind: int)
  {
    forall p: nat :: p in s ==> p < |parcels| && parcels[p].kind == kind
  }

  ghost predicate Suits(parcels: seq<Parcel>, t: Task)
  {
    && GoesBy(t.identity, t.role)
    && (forall p: nat :: p in Slots(t) ==> p < |parcels| && Fits(parcels[p], t.role))
    && (t.role.Handler? ==>
          OfKind(parcels, t.role.work, WORK_PACKET_KIND) && OfKind(parcels, t.role.device, DEVICE_PACKET_KIND))
    && (t.role.Idle? && !t.holding ==> t.role.count >= 1)
  }

  /** Every identity but the idle task's has a task of its role. */
  ghost predicate Manned(m: Machine)
  {
    && |m.table| == NUM_TYPES
    && forall d: nat :: 0 < d < NUM_TYPES ==>
         m.table[d] < |m.tasks| && !m.tasks[m.table[d]].role.Idle? && GoesBy(d, m.tasks[m.table[d]].role)
  }

  ghost predicate Suited(m: Machine)
  {
    Manned(m) && forall i: nat :: i < |m.tasks| ==> Suits(m.parcels, m.tasks[i])
  }

  /** A system of the benchmark's kind. */
  ghost predicate Typed(m: Machine) { WellFormed(m) && Distinct(m) && Suited(m) }

  // ── What is left to do ────────────────────────────────────────────

  /** A packet that counts: a finished work packet, or a device packet. */
  predicate Picks(q: Parcel, full: bool)
  {
    if full then q.kind == WORK_PACKET_KIND && q.datum >= DATA_SIZE else q.kind == DEVICE_PACKET_KIND
  }

  ghost function Tally(parcels: seq<Parcel>, s: seq<nat>, full: bool): nat
  {
    if s == [] then 0
    else (if s[0] < |parcels| && Picks(parcels[s[0]], full) then 1 else 0) + Tally(parcels, s[1..], full)
  }

  lemma {:induction false} TallyPlus(parcels: seq<Parcel>, a: seq<nat>, b: seq<nat>, full: bool)
    ensures Tally(parcels, a + b, full) == Tally(parcels, a, full) + Tally(parcels, b, full)
  {
    if a == [] {
      assert a + b == b;
    } else {
      assert (a + b)[0] == a[0] && (a + b)[1..] == a[1..] + b;
      TallyPlus(parcels, a[1..], b, full);
    }
  }

  lemma TallyOne(parcels: seq<Parcel>, p: nat, full: bool)
    ensures Tally(parcels, [p], full) == if p < |parcels| && Picks(parcels[p], full) then 1 else 0
  {
    assert Tally(parcels, [p][1..], full) == 0;
  }

  lemma {:induction false} TallySame(parcels: seq<Parcel>, parcels': seq<Parcel>, s: seq<nat>, full: bool)
    requires |parcels| == |parcels'|
    requires forall p: nat :: p in s && p < |parcels| ==> (Picks(parcels[p], full) <==> Picks(parcels'[p], full))
    ensures Tally(parcels, s, full) == Tally(parcels', s, full)
  {
    if s != [] { TallySame(parcels, parcels', s[1..], full); }
  }

  /** A device off hold with a packet to send on. */
  predicate Armed(t: Task) { t.role.Device? && t.role.pending.Some? && !t.holding }

  /**
   * What is left, most significant first: the idle tasks' counts, device packets a handler may still fill,
   * hops of work packets that need no device packet, and moves that only shift packets or set flags.
   */
  datatype Cost = Cost(runs: int, fills: int, hops: int, moves: int)

  ghost function CostOf(parcels: seq<Parcel>, t: Task): Cost
  {
    Cost(if t.role.Idle? && t.role.count > 0 then t.role.count else 0,
         if t.role.Handler? then Tally(parcels, Slots(t), false) else if Armed(t) then 1 else 0,
         if t.role.Handler? then 2 * Tally(parcels, Slots(t), true) else if t.role.Worker? then |t.input| else 0,
         2 * |t.input| + (if t.waiting then 0 else 1) + if Armed(t) then 3 else 0)
  }

  function Plus(a: Cost, b: Cost): Cost
  {
    Cost(a.runs + b.runs, a.fills + b.fills, a.hops + b.hops, a.moves + b.moves)
  }

  ghost function Total(parcels: seq<Parcel>, tasks: seq<Task>): (c: Cost)
    ensures c.runs >= 0 && c.fills >= 0 && c.hops >= 0 && c.moves >= 0
  {
    if tasks == [] then Cost(0, 0, 0, 0)
    else Plus(Total(parcels, tasks[..|tasks| - 1]), CostOf(parcels, tasks[|tasks| - 1]))
  }

  ghost function Left(m: Machine): Cost { Total(m.parcels, m.tasks) }

  ghost predicate Less(a: Cost, b: Cost)
  {
    || a.runs < b.runs
    || (a.runs == b.runs && (|| a.fills < b.fills
                             || (a.fills == b.fills && (a.hops < b.hops || (a.hops == b.hops && a.moves < b.moves)))))
  }

  lemma {:induction false} TotalWith(parcels: seq<Parcel>, tasks: seq<Task>, i: nat, t: Task)
    requires i < |tasks|
    ensures Plus(Total(parcels, tasks[i := t]), CostOf(parcels, tasks[i])) ==
            Plus(Total(parcels, tasks), CostOf(parcels, t))
  {
    hide CostOf;
    var n := |tasks| - 1;
    if i < n {
      TotalWith(parcels, tasks[..n], i, t);
      assert tasks[i := t][..n] == tasks[..n][i := t] && tasks[i := t][n] == tasks[n];
    } else {
      assert tasks[i := t][..n] == tasks[..n] && tasks[i := t][n] == t;
    }
  }

  /** Kinds decide all but the hops. */
  lemma {:induction false} TotalSame(parcels: seq<Parcel>, parcels': seq<Parcel>, tasks: seq<Task>)
    requires |parcels| == |parcels'| && forall p: nat :: p < |parcels| ==> parcels'[p].kind == parcels[p].kind
    ensures var a, b := Total(parcels, tasks), Total(parcels', tasks);
            && a.runs == b.runs && a.fills == b.fills && a.moves == b.moves
            && ((forall i: nat, p: nat :: i < |tasks| && p in Slots(tasks[i]) && p < |parcels| ==>
                   (Picks(parcels[p], true) <==> Picks(parcels'[p], true))) ==> a.hops == b.hops)
  {
    hide Slots;
    if tasks != [] {
      var n := |tasks| - 1;
      TotalSame(parcels, parcels', tasks[..n]);
      assert forall i: nat :: i < n ==> tasks[..n][i] == tasks[i];
      TallySame(parcels, parcels', Slots(tasks[n]), false);
      if forall i: nat, p: nat :: i < |tasks| && p in Slots(tasks[i]) && p < |parcels| ==>
           (Picks(parcels[p], true) <==> Picks(parcels'[p], true)) {
        TallySame(parcels, parcels', Slots(tasks[n]), true);
      }
    }
  }

  // ── Changing one task, and queueing ───────────────────────────────

  predicate Alike(r: Role, r': Role)
  {
    (r.Device? <==> r'.Device?) && (r.Handler? <==> r'.Handler?) && (r.Idle? <==> r'.Idle?)
  }

  lemma TaskSwapped(m: Machine, i: nat, t: Task, m': Machine)
    requires Suited(m) && i < |m.tasks| && Suits(m.parcels, t) && Alike(m.tasks[i].role, t.role)
    requires m'.tasks == m.tasks[i := t] && m'.parcels == m.parcels && m'.table == m.table
    ensures Suited(m') && Plus(Left(m'), CostOf(m.parcels, m.tasks[i])) == Plus(Left(m), CostOf(m.parcels, t))
  {
    hide Suits, CostOf;
    TotalWith(m.parcels, m.tasks, i, t);
  }

  lemma SuitsSame(parcels: seq<Parcel>, p: nat, q: Parcel, t: Task)
    requires Suits(parcels, t) && p < |parcels| && p !in Slots(t)
    ensures Suits(parcels[p := q], t)
  {
    assert t.role.Handler? ==> forall x :: x in t.role.work || x in t.role.device ==> x in Slots(t);
  }

  /** A packet no task has may be rewritten, if its kind stays. */
  lemma ParcelWritten(m: Machine, p: nat, q: Parcel, m': Machine)
    requires Suited(m) && p < |m.parcels| && Places(m)[p] == 0 && q.kind == m.parcels[p].kind
    requires m'.tasks == m.tasks && m'.parcels == m.parcels[p := q] && m'.table == m.table
    ensures Suited(m') && Left(m') == Left(m)
  {
    hide Suits, Slots, Picks, Gather;
    forall i: nat | i < |m.tasks| ensures p !in Slots(m.tasks[i]) && Suits(m'.parcels, m.tasks[i]) {
      GatherHas(m.tasks, i, p);
      InMultiset(Slots(m.tasks[i]), p);
      SuitsSame(m.parcels, p, q, m.tasks[i]);
    }
    TotalSame(m.parcels, m'.parcels, m.tasks);
  }

  lemma InputCost(parcels: seq<Parcel>, t: Task, p: nat)
    requires Suits(parcels, t) && p < |parcels| && Fits(parcels[p], t.role)
    ensures var t' := t.(input := t.input + [p]);
            Suits(parcels, t') && CostOf(parcels, t') == Plus(CostOf(parcels, t), Arrival(parcels[p], t.role))
  {
    var t' := t.(input := t.input + [p]);
    assert Slots(t) == t.input + Kept(t.role) && Slots(t') == t.input + ([p] + Kept(t.role));
    assert forall x :: x in Slots(t') <==> x in Slots(t) || x == p;
    hide Slots, Fits, Picks, OfKind;
    InputTally(parcels, t.input, Kept(t.role), p, false);
    InputTally(parcels, t.input, Kept(t.role), p, true);
  }

  lemma InputTally(parcels: seq<Parcel>, a: seq<nat>, b: seq<nat>, p: nat, full: bool)
    requires p < |parcels|
    ensures Tally(parcels, a + ([p] + b), full) ==
            Tally(parcels, a + b, full) + if Picks(parcels[p], full) then 1 else 0
  {
    TallyPlus(parcels, a, [p] + b, full);
    TallyPlus(parcels, [p], b, full);
    TallyPlus(parcels, a, b, full);
    TallyOne(parcels, p, full);
  }

  /** What one more packet in its input costs a task. */
  function Arrival(q: Parcel, r: Role): Cost
  {
    Cost(0,
         if r.Handler? && Picks(q, false) then 1 else 0,
         if r.Handler? then if Picks(q, true) then 2 else 0 else if r.Worker? then 1 else 0,
         2)
  }

  /** Queueing a packet in hand. */
  lemma QueueCost(m: Machine, i: nat, p: nat)
    requires WellFormed(m) && Suited(m) && i < |m.tasks| && p < |m.parcels| && Places(m)[p] == 0
    requires Fits(m.parcels[p].(identity := m.currentIdentity), m.tasks[m.table[m.parcels[p].identity]].role)
    ensures Suited(Queue(m, i, p))
    ensures Left(Queue(m, i, p)) ==
            Plus(Left(m), Arrival(m.parcels[p], m.tasks[m.table[m.parcels[p].identity]].role))
  {
    assert ParcelOk(m.parcels[p]);
    var t := m.table[m.parcels[p].identity];
    var q := m.parcels[p].(identity := m.currentIdentity);
    var m1 := m.(parcels := m.parcels[p := q]);
    hide Suits, Places, TaskOk, ParcelOk, Fits, CostOf, Left;
    ParcelWritten(m, p, q, m1);
    InputCost(m1.parcels, m.tasks[t], p);
    TaskSwapped(m1, t, m.tasks[t].(input := m.tasks[t].input + [p]), Queue(m, i, p));
  }

  // ── One turn of each role ─────────────────────────────────────────

  /** Task i has the turn and is not passed over. */
  ghost predicate OnTurn(m: Machine, i: nat)
  {
    Typed(m) && m.current == Some(i) && i < |m.tasks| && !HoldingOrWaiting(m.tasks[i])
  }

  ghost predicate Lower(m: Machine, m': Machine) { Suited(m') && Less(Left(m'), Left(m)) }

  /** Task i becomes t, and nothing is queued. */
  lemma OneChanged(m: Machine, i: nat, t: Task, m': Machine)
    requires Suited(m) && i < |m.tasks| && Suits(m.parcels, t) && Alike(m.tasks[i].role, t.role)
    requires m'.tasks == m.tasks[i := t] && m'.parcels == m.parcels && m'.table == m.table
    requires Less(CostOf(m.parcels, t), CostOf(m.parcels, m.tasks[i]))
    ensures Lower(m, m')
  {
    hide Suits, CostOf, Suited;
    TaskSwapped(m, i, t, m');
  }

  /** A task that only stops to wait. */
  lemma WaitTurn(m: Machine, i: nat, t: Task, m': Machine)
    requires Suited(m) && i < |m.tasks| && Suits(m.parcels, t) && Alike(m.tasks[i].role, t.role)
    requires m'.tasks == m.tasks[i := t] && m'.parcels == m.parcels && m'.table == m.table
    requires !m.tasks[i].role.Device? && t == m.tasks[i].(waiting := true) && !m.tasks[i].waiting
    ensures Lower(m, m')
  {
    hide Suits, Suited;
    assert Slots(t) == Slots(m.tasks[i]);
    OneChanged(m, i, t, m');
  }

  lemma SuitsAt(m: Machine, i: nat)
    requires Typed(m) && i < |m.tasks|
    ensures WellFormed(m) && Suited(m) && Distinct(m) && Manned(m) && Suits(m.parcels, m.tasks[i])
    ensures TaskOk(m.tasks[i], i, |m.parcels|) && GoesBy(m.tasks[i].identity, m.tasks[i].role)
    ensures m.tasks[i].identity < NUM_TYPES
  {
    assert Suits(m.parcels, m.tasks[i]);
  }

  /** A device that moves its first input packet into its own keeping. */
  lemma TakesOver(parcels: seq<Parcel>, k: Task, t: Task)
    requires Suits(parcels, k) && k.role.Device? && k.role.pending.None? && k.input != []
    requires t == k.(input := k.input[1..], waiting := false, holding := true, role := Device(Some(k.input[0])))
    ensures Suits(parcels, t)
  {
    forall p: nat | p in Slots(t) ensures p < |parcels| && Fits(parcels[p], t.role) {
      assert p in Slots(k);
      assert Fits(parcels[p], k.role);
    }
  }

  lemma DeviceTurn(m: Machine, i: nat)
    requires OnTurn(m, i) && m.tasks[i].role.Device?
    ensures Lower(m, Next(m))
  {
    SuitsAt(m, i);
    hide Typed, WellFormed, Suited, Places, Manned, Distinct;
    var k := m.tasks[i];
    if WaitingWithPacket(k) {
      var t := k.(input := k.input[1..], waiting := false, holding := true, role := Device(Some(k.input[0])));
      TakesOver(m.parcels, k, t);
      OneChanged(m, i, t, Next(m));
    } else if k.role.pending.None? {
      assert Slots(k.(waiting := true)) == Slots(k);
      OneChanged(m, i, k.(waiting := true), Next(m));
    } else {
      DeviceSends(m, i);
    }
  }

  lemma DeviceSends(m: Machine, i: nat)
    requires OnTurn(m, i) && m.tasks[i].role.Device? && m.tasks[i].role.pending.Some? && !m.tasks[i].waiting
    ensures Lower(m, Next(m))
  {
    SuitsAt(m, i);
    var k := m.tasks[i];
    var p := k.role.pending.value;
    PendingFits(m, k);
    var m1 := m.(currentIdentity := k.identity);
    var m2 := WithRole(m1, i, Device(None));
    RoleKept(m1, i, Device(None));
    hide Typed, WellFormed, Suited, Places, Distinct, TaskOk, Suits, CostOf, Left, Slots, Kept;
    EmptiedPlaces(m, i, p, m2);
    TaskSwapped(m, i, k.(role := Device(None)), m2);
    SuitedManned(m2);
    QueueCost(m2, i, p);
  }

  lemma EmptiedPlaces(m: Machine, i: nat, p: nat, m2: Machine)
    requires Distinct(m) && i < |m.tasks| && m.tasks[i].role == Device(Some(p))
    requires m2.tasks == m.tasks[i := m.tasks[i].(role := Device(None))]
    ensures Places(m2)[p] == 0
  {
    hide Distinct, Places, Slots;
    RolePlaces(m, i, Device(None), multiset{p}, multiset{});
    SamePlaces(WithRole(m, i, Device(None)), m2);
    DistinctLess(m, m2, p);
  }

  /** What a device off hold sends is a device packet for a handler, and the device keeps nothing. */
  lemma PendingFits(m: Machine, k: Task)
    requires Suits(m.parcels, k) && k.role.Device? && k.role.pending.Some? && !k.holding && !k.waiting
    ensures var p := k.role.pending.value;
            && p < |m.parcels| && m.parcels[p].kind == DEVICE_PACKET_KIND && IsHandler(m.parcels[p].identity)
            && IsDevice(k.identity)
    ensures var t := k.(role := Device(None));
            Suits(m.parcels, t)
            && Plus(CostOf(m.parcels, t), Cost(0, 1, 0, 3)) == CostOf(m.parcels, k)
  {
    assert k.role.pending.value in Slots(k);
    assert forall x :: x in Slots(k.(role := Device(None))) ==> x in Slots(k);
  }

  /** Who answers to an identity other than the idle task's. */
  lemma AtDesk(m: Machine, d: nat)
    requires Manned(m) && 0 < d < NUM_TYPES
    ensures |m.table| == NUM_TYPES && m.table[d] < |m.tasks|
    ensures !m.tasks[m.table[d]].role.Idle? && GoesBy(d, m.tasks[m.table[d]].role)
  {}

  lemma SuitedManned(m: Machine)
    requires Suited(m)
    ensures Manned(m)
  {}

  lemma IdleTurn(m: Machine, i: nat)
    requires OnTurn(m, i) && m.tasks[i].role.Idle?
    ensures Lower(m, Next(m))
  {
    SuitsAt(m, i);
    hide Typed, WellFormed, Suited, Distinct, TaskOk, Xor, Left;
    var k := m.tasks[i];
    var r := k.role;
    IdleNeverTakes(m, k);
    var c := r.count - 1;
    var control := if c == 0 then r.control else if r.control % 2 == 0 then r.control / 2
        else Xor(r.control / 2, 53256);
    if c == 0 {
      OneChanged(m, i, k.(role := Idle(control, c), holding := true), Next(m));
    } else {
      var t := k.(role := Idle(control, c));
      var m1 := m.(tasks := m.tasks[i := t], currentIdentity := k.identity);
      assert Slots(t) == Slots(k);
      TaskSwapped(m, i, t, m1);
      ReleaseCost(m1, if r.control % 2 == 0 then DEVICE_A else DEVICE_B, Next(m));
    }
  }

  lemma NoMembers(s: seq<nat>)
    ensures (forall p: nat :: p !in s) ==> s == []
  {
    if s != [] { assert s[0] in s; }
  }

  lemma IdleNeverTakes(m: Machine, k: Task)
    requires Suits(m.parcels, k) && k.role.Idle?
    ensures k.input == [] && Slots(k) == []
  {
    NoMembers(Slots(k));
  }

  /** Taking a device off hold starts no idle run. */
  lemma ReleaseCost(m: Machine, d: nat, m': Machine)
    requires Suited(m) && IsDevice(d) && Manned(m)
    requires var t := m.table[d]; m'.tasks == m.tasks[t := m.tasks[t].(holding := false)]
    requires m'.parcels == m.parcels && m'.table == m.table
    ensures Suited(m') && Left(m').runs == Left(m).runs
  {
    var t := m.table[d];
    var k := m.tasks[t];
    assert Suits(m.parcels, k);
    assert Slots(k.(holding := false)) == Slots(k);
    hide Suited, Left;
    TaskSwapped(m, t, k.(holding := false), m');
  }

  lemma WorkerTurn(m: Machine, i: nat)
    requires OnTurn(m, i) && m.tasks[i].role.Worker?
    ensures Lower(m, Next(m))
  {
    SuitsAt(m, i);
    var k := m.tasks[i];
    if WaitingWithPacket(k) {
      WorkerSends(m, i);
    } else {
      hide Typed, WellFormed, Suited, Distinct, TaskOk, Left;
      assert Slots(k.(waiting := true)) == Slots(k);
      WaitTurn(m, i, k.(waiting := true), Next(m));
    }
  }

  lemma WorkerSends(m: Machine, i: nat)
    requires OnTurn(m, i) && m.tasks[i].role.Worker? && WaitingWithPacket(m.tasks[i])
    ensures Lower(m, Next(m))
  {
    SuitsAt(m, i);
    var k := m.tasks[i];
    var w := k.input[0];
    var q, t := WorkerOut(m, i);
    WorkTaken(m.parcels, k, t);
    var m1 := m.(currentIdentity := k.identity, tasks := m.tasks[i := t]);
    var m2 := m1.(parcels := m.parcels[w := q]);
    hide Typed, WellFormed, Suited, Distinct, TaskOk, Suits, CostOf, Left, Slots, Kept, Places, Next, Queue;
    TakenAway(m, i, t, w, m1);
    SamePlaces(m1, m2);
    TaskSwapped(m, i, t, m1);
    ParcelWritten(m1, w, q, m2);
    SuitedManned(m2);
    QueueCost(m2, i, w);
  }

  /** The worker's turn queues the packet, readdressed to a handler and with nothing taken from it yet. */
  lemma WorkerOut(m: Machine, i: nat) returns (q: Parcel, t: Task)
    requires WellFormed(m) && m.current == Some(i) && i < |m.tasks|
    requires m.tasks[i].role.Worker? && WaitingWithPacket(m.tasks[i])
    ensures var k := m.tasks[i];
            && t.role.Worker? && k.input[0] < |m.parcels|
            && t == k.(input := k.input[1..], waiting := false, holding := false, role := t.role)
            && q.kind == m.parcels[k.input[0]].kind && IsHandler(q.identity) && q.datum == 0
            && var m2 := m.(currentIdentity := k.identity, tasks := m.tasks[i := t],
                            parcels := m.parcels[k.input[0] := q]);
               WellFormed(m2) && Next(m) == Queue(m2, i, k.input[0])
  {
    var k := m.tasks[i];
    var w := k.input[0];
    var m1 := m.(currentIdentity := k.identity);
    LinkKnown(m, i);
    TakenKept(m1, i);
    var dest := if k.role.destination == HANDLER_A then HANDLER_B else HANDLER_A;
    var (letters, count) := Letters(k.role.count, DATA_SIZE);
    t := k.(input := k.input[1..], waiting := false, holding := false, role := Worker(dest, count));
    q := Parcel(dest, m.parcels[w].kind, 0, letters);
    hide WellFormed, Letters, Queue, TaskOk;
    WorkerKept(Taken(m1, i), i, Worker(dest, count), w, q);
    assert Taken(m1, i).tasks[i := t] == m.tasks[i := t];
  }

  /** Task i gives packet p away, and nothing else changes. */
  lemma GivenAway(m: Machine, i: nat, t: Task, p: nat, m': Machine)
    requires Suited(m) && Distinct(m) && i < |m.tasks| && Suits(m.parcels, t) && Alike(m.tasks[i].role, t.role)
    requires multiset(Slots(t)) + multiset{p} == multiset(Slots(m.tasks[i]))
    requires m'.tasks == m.tasks[i := t] && m'.parcels == m.parcels && m'.table == m.table
    ensures Suited(m') && Manned(m') && Places(m')[p] == 0
    ensures Plus(Left(m'), CostOf(m.parcels, m.tasks[i])) == Plus(Left(m), CostOf(m.parcels, t))
  {
    hide Distinct, Places, Slots, Suited, CostOf, Suits, Left;
    TakenAway(m, i, t, p, m');
    TaskSwapped(m, i, t, m');
    SuitedManned(m');
  }

  lemma TakenAway(m: Machine, i: nat, t: Task, p: nat, m': Machine)
    requires Distinct(m) && i < |m.tasks| && multiset(Slots(t)) + multiset{p} == multiset(Slots(m.tasks[i]))
    requires m'.tasks == m.tasks[i := t]
    ensures Places(m')[p] == 0
  {
    hide Distinct, Places, Slots;
    PlacesWith(m, i, t, multiset{p}, multiset{});
    SamePlaces(WithTask(m, i, t), m');
    DistinctLess(m, m', p);
  }

  lemma WorkTaken(parcels: seq<Parcel>, k: Task, t: Task)
    requires Suits(parcels, k) && k.role.Worker? && k.input != [] && k.waiting && t.role.Worker?
    requires t == k.(input := k.input[1..], waiting := false, holding := false, role := t.role)
    ensures Suits(parcels, t) && Plus(CostOf(parcels, t), Cost(0, 0, 1, 1)) == CostOf(parcels, k)
    ensures k.input[0] < |parcels| && parcels[k.input[0]].kind == WORK_PACKET_KIND
    ensures multiset(Slots(t)) + multiset{k.input[0]} == multiset(Slots(k))
  {
    assert Slots(k) == [k.input[0]] + Slots(t);
    assert k.input[0] in Slots(k);
    forall p: nat | p in Slots(t) ensures p < |parcels| && Fits(parcels[p], t.role) {
      assert p in Slots(k);
      assert Fits(parcels[p], k.role);
    }
  }

  /** The handler after it has taken and sorted its packet, if it had one. */
  ghost function Sorted(m: Machine, k: Task): Task
    requires k.role.Handler? && (k.input != [] ==> k.input[0] < |m.parcels|)
  {
    if WaitingWithPacket(k)
    then k.(input := k.input[1..], waiting := false, holding := false, role := Received(m, k.role, Some(k.input[0])))
    else k
  }

  lemma SortedFits(m: Machine, k: Task)
    requires Suits(m.parcels, k) && k.role.Handler? && !HoldingOrWaiting(k)
    ensures k.input != [] ==> k.input[0] < |m.parcels|
    ensures var t := Sorted(m, k);
            && Suits(m.parcels, t) && t.role.Handler? && !t.waiting && !t.holding
            && multiset(Slots(t)) == multiset(Slots(k))
            && Plus(CostOf(m.parcels, t), Cost(0, 0, 0, if WaitingWithPacket(k) then 1 else 0)) == CostOf(m.parcels, k)
  {
    assert k.input != [] ==> k.input[0] in Slots(k);
    if WaitingWithPacket(k) {
      var w, rest, r := k.input[0], k.input[1..], k.role;
      assert Fits(m.parcels[w], r);
      assert k.input == [w] + rest;
      var t := Sorted(m, k);
      ReceivedPlaces(m, r, Some(w));
      assert multiset(Slots(t)) == multiset(rest) + multiset(Kept(t.role));
      assert multiset(Slots(k)) == multiset([w] + rest) + multiset(Kept(r));
      SortedSuits(m.parcels, k, t, w);
      forall full: bool ensures Tally(m.parcels, Slots(t), full) == Tally(m.parcels, Slots(k), full) {
        SortedTally(m.parcels, w, rest, r, t.role, full);
      }
    }
  }

  lemma SortedSuits(parcels: seq<Parcel>, k: Task, t: Task, w: nat)
    requires Suits(parcels, k) && k.role.Handler? && t.role.Handler? && w in Slots(k)
    requires t == k.(input := t.input, waiting := t.waiting, holding := t.holding, role := t.role)
    requires multiset(Slots(t)) == multiset(Slots(k))
    requires t.role == if parcels[w].kind == WORK_PACKET_KIND then k.role.(work := k.role.work + [w])
                       else k.role.(device := k.role.device + [w])
    ensures Suits(parcels, t)
  {
    assert Fits(parcels[w], k.role);
    forall p: nat | p in Slots(t) ensures p < |parcels| && Fits(parcels[p], t.role) {
      InMultiset(Slots(t), p);
      InMultiset(Slots(k), p);
      assert Fits(parcels[p], k.role);
    }
  }

  lemma SortedTally(parcels: seq<Parcel>, w: nat, rest: seq<nat>, r: Role, r': Role, full: bool)
    requires r.Handler? && r'.Handler? && (r' == r.(work := r.work + [w]) || r' == r.(device := r.device + [w]))
    ensures Tally(parcels, rest + Kept(r'), full) == Tally(parcels, ([w] + rest) + Kept(r), full)
  {
    TallyPlus(parcels, rest, Kept(r'), full);
    TallyPlus(parcels, [w] + rest, Kept(r), full);
    TallyPlus(parcels, [w], rest, full);
    TallyPlus(parcels, r.work, r.device, full);
    TallyPlus(parcels, r'.work, r'.device, full);
    TallyPlus(parcels, r.work, [w], full);
    TallyPlus(parcels, r.device, [w], full);
  }

  /** A handler's turn from the task as sorted: with nothing to send it waits. */
  lemma HandlerRest(m: Machine, i: nat)
    requires OnTurn(m, i) && m.tasks[i].role.Handler? && (m.tasks[i].input != [] ==> m.tasks[i].input[0] < |m.parcels|)
    ensures var t := Sorted(m, m.tasks[i]);
            t.role.Handler?
            && (t.role.work == [] || (t.role.device == [] && t.role.work[0] < |m.parcels|
                                      && m.parcels[t.role.work[0]].datum < DATA_SIZE) ==>
                  && Next(m).tasks == m.tasks[i := t.(waiting := true)]
                  && Next(m).parcels == m.parcels && Next(m).table == m.table)
  {
    LinkKnown(m, i);
    hide Queue, TaskOk, Suited, Distinct;
    var k := m.tasks[i];
    var m1 := m.(currentIdentity := k.identity);
    var t := Sorted(m, k);
    assert m.tasks[i := t][i := t.(waiting := true)] == m.tasks[i := t.(waiting := true)];
    assert Received(m1, k.role, None) == k.role && m1.tasks[i := k] == m1.tasks;
  }

  lemma HandlerWaits(m: Machine, i: nat, t: Task)
    requires OnTurn(m, i) && m.tasks[i].role.Handler? && Suits(m.parcels, t) && t.role.Handler? && !t.waiting
    requires Plus(CostOf(m.parcels, t), Cost(0, 0, 0, if WaitingWithPacket(m.tasks[i]) then 1 else 0)) ==
             CostOf(m.parcels, m.tasks[i])
    requires Next(m).tasks == m.tasks[i := t.(waiting := true)] && Next(m).parcels == m.parcels
        && Next(m).table == m.table
    ensures Lower(m, Next(m))
  {
    hide Next, WellFormed, Distinct;
    var t' := t.(waiting := true);
    assert Slots(t') == Slots(t);
    OneChanged(m, i, t', Next(m));
  }

  /** A handler with role r, but for the first packet of one of its queues. */
  function Sent(t: Task, work: bool): (t': Task)
    requires t.role.Handler? && (if work then t.role.work != [] else t.role.device != [])
  {
    t.(role := if work then t.role.(work := t.role.work[1..]) else t.role.(device := t.role.device[1..]))
  }

  lemma SentFits(parcels: seq<Parcel>, t: Task, work: bool, p: nat)
    requires Suits(parcels, t) && t.role.Handler? && (if work then t.role.work != [] else t.role.device != [])
    requires p == if work then t.role.work[0] else t.role.device[0]
    ensures p < |parcels| && parcels[p].kind == (if work then WORK_PACKET_KIND else DEVICE_PACKET_KIND)
    ensures if work then parcels[p].identity == WORKER else IsDevice(parcels[p].identity)
    ensures var t' := Sent(t, work);
            && Suits(parcels, t') && multiset(Slots(t')) + multiset{p} == multiset(Slots(t))
            && Plus(CostOf(parcels, t'), Cost(0, if work then 0 else 1,
                                              if Picks(parcels[p], true) then 2 else 0, 0)) == CostOf(parcels, t)
  {
    assert Fits(parcels[p], t.role) by { SentSlots(t, work, p); }
    assert p in if work then t.role.work else t.role.device;
    SentSuits(parcels, t, Sent(t, work));
    hide Slots, Kept, Suits;
    SentSlots(t, work, p);
    SentTally(parcels, t, work, p, false);
    SentTally(parcels, t, work, p, true);
  }

  lemma SentSlots(t: Task, work: bool, p: nat)
    requires t.role.Handler? && (if work then t.role.work != [] else t.role.device != [])
    requires p == if work then t.role.work[0] else t.role.device[0]
    ensures p in Slots(t) && multiset(Slots(Sent(t, work))) + multiset{p} == multiset(Slots(t))
  {
    var t' := Sent(t, work);
    if work { WorkRest(t.role); } else { DeviceRest(t.role); }
    assert multiset(Slots(t)) == multiset(t.input) + multiset(Kept(t.role));
    assert multiset(Slots(t')) == multiset(t.input) + multiset(Kept(t'.role));
    assert p in Kept(t.role);
  }

  lemma SentTally(parcels: seq<Parcel>, t: Task, work: bool, p: nat, full: bool)
    requires t.role.Handler? && (if work then t.role.work != [] else t.role.device != [])
    requires p == (if work then t.role.work[0] else t.role.device[0]) && p < |parcels|
    ensures Tally(parcels, Slots(t), full) ==
            Tally(parcels, Slots(Sent(t, work)), full) + if Picks(parcels[p], full) then 1 else 0
  {
    hide Picks;
    var r, r' := t.role, Sent(t, work).role;
    TallyPlus(parcels, t.input, Kept(r), full);
    TallyPlus(parcels, t.input, Kept(r'), full);
    TallyPlus(parcels, r.work, r.device, full);
    TallyPlus(parcels, r'.work, r'.device, full);
  }

  lemma SentSuits(parcels: seq<Parcel>, t: Task, t': Task)
    requires Suits(parcels, t) && t.role.Handler? && t'.role.Handler? && t' == t.(role := t'.role)
    requires forall p: nat :: p in t'.role.work ==> p in t.role.work
    requires forall p: nat :: p in t'.role.device ==> p in t.role.device
    ensures Suits(parcels, t')
  {
    forall p: nat | p in Slots(t') ensures p < |parcels| && Fits(parcels[p], t'.role) {
      assert p in Slots(t);
      assert Fits(parcels[p], t.role);
    }
  }

  /** The machine a handler's function is run on. */
  lemma HandlerRuns(m: Machine, i: nat) returns (m0: Machine, work: Option<nat>)
    requires OnTurn(m, i) && m.tasks[i].role.Handler? && (m.tasks[i].input != [] ==> m.tasks[i].input[0] < |m.parcels|)
    ensures WellFormed(m0) && |m0.tasks| == |m.tasks| && m0.tasks[i].role == m.tasks[i].role
    ensures m0.parcels == m.parcels && m0.table == m.table && m0.currentIdentity == m.tasks[i].identity
    ensures m0 == m.(currentIdentity := m.tasks[i].identity, tasks := m0.tasks)
    ensures work.Some? ==> work.value < |m.parcels|
    ensures Next(m) == RunHandler(m0, i, work)
    ensures Sorted(m, m.tasks[i]) == m0.tasks[i].(role := Received(m0, m0.tasks[i].role, work))
    ensures m0.tasks == m.tasks[i := m0.tasks[i]]
  {
    LinkKnown(m, i);
    hide RunHandler, TaskOk, Suited, Distinct;
    m0 := m.(currentIdentity := m.tasks[i].identity);
    work := None;
    if WaitingWithPacket(m.tasks[i]) {
      TakenKept(m0, i);
      work := Some(m.tasks[i].input[0]);
      m0 := Taken(m0, i);
    }
  }

  /** A handler that sends on a finished work packet queues it for the worker. */
  lemma ForwardNext(m: Machine, i: nat, t: Task)
    requires OnTurn(m, i) && m.tasks[i].role.Handler? && (m.tasks[i].input != [] ==> m.tasks[i].input[0] < |m.parcels|)
    requires t == Sorted(m, m.tasks[i]) && t.role.Handler? && t.role.work != [] && t.role.work[0] < |m.parcels|
    requires m.parcels[t.role.work[0]].datum >= DATA_SIZE
    ensures var m2 := m.(currentIdentity := m.tasks[i].identity, tasks := m.tasks[i := Sent(t, true)]);
            WellFormed(m2) && Next(m) == Queue(m2, i, t.role.work[0])
  {
    var m0, work := HandlerRuns(m, i);
    hide Queue, TaskOk, Suited, Distinct, WellFormed, Next, OnTurn, Sorted, Kept;
    ReceivedKept(m0, i, work);
    RoleKept(m0, i, t.role);
    HandledKept(m0, i, work);
    RoleKept(WithRole(m0, i, t.role), i, Sent(t, true).role);
    var m2 := m.(currentIdentity := m.tasks[i].identity, tasks := m.tasks[i := Sent(t, true)]);
    assert WithRole(WithRole(m0, i, t.role), i, Sent(t, true).role) == m2;
  }

  lemma HandlerForwards(m: Machine, i: nat, t: Task)
    requires OnTurn(m, i) && m.tasks[i].role.Handler? && (m.tasks[i].input != [] ==> m.tasks[i].input[0] < |m.parcels|)
    requires t == Sorted(m, m.tasks[i]) && t.role.Handler? && t.role.work != [] && t.role.work[0] < |m.parcels|
    requires m.parcels[t.role.work[0]].datum >= DATA_SIZE && Suits(m.parcels, t)
    requires multiset(Slots(t)) == multiset(Slots(m.tasks[i]))
    requires Plus(CostOf(m.parcels, t), Cost(0, 0, 0, if WaitingWithPacket(m.tasks[i]) then 1 else 0)) ==
             CostOf(m.parcels, m.tasks[i])
    ensures Lower(m, Next(m))
  {
    hide WellFormed, Suited, Distinct, TaskOk, Suits, CostOf, Left, Slots, Kept, Places, Next, Queue, Sorted, Manned;
    SuitsAt(m, i);
    var w := t.role.work[0];
    ForwardNext(m, i, t);
    SentFits(m.parcels, t, true, w);
    var m2 := m.(currentIdentity := m.tasks[i].identity, tasks := m.tasks[i := Sent(t, true)]);
    GivenAway(m, i, Sent(t, true), w, m2);
    AtDesk(m2, WORKER);
    QueueCost(m2, i, w);
  }

  /** A handler that fills a device packet queues it for the device, with nothing but data changed. */
  lemma FillNext(m: Machine, i: nat, t: Task) returns (parcels: seq<Parcel>)
    requires OnTurn(m, i) && m.tasks[i].role.Handler? && (m.tasks[i].input != [] ==> m.tasks[i].input[0] < |m.parcels|)
    requires t == Sorted(m, m.tasks[i]) && t.role.Handler? && t.role.work != [] && t.role.work[0] < |m.parcels|
    requires m.parcels[t.role.work[0]].datum < DATA_SIZE && t.role.device != [] && t.role.device[0] < |m.parcels|
    ensures |parcels| == |m.parcels|
    ensures forall p: nat :: p < |parcels| ==> parcels[p] == m.parcels[p].(datum := parcels[p].datum)
    ensures var m3 := m.(currentIdentity := m.tasks[i].identity, tasks := m.tasks[i := Sent(t, false)],
        parcels := parcels);
            WellFormed(m3) && Next(m) == Queue(m3, i, t.role.device[0])
  {
    var m0, work := HandlerRuns(m, i);
    var w, d := t.role.work[0], t.role.device[0];
    ParcelFull(m0, w);
    hide Queue, TaskOk, Suited, Distinct, WellFormed, Next, OnTurn, Sorted, Kept, Filled, Received, WithRole, ParcelOk;
    ReceivedKept(m0, i, work);
    RoleKept(m0, i, t.role);
    HandledKept(m0, i, work);
    RoleKept(WithRole(m0, i, t.role), i, Sent(t, false).role);
    var m2 := m.(currentIdentity := m.tasks[i].identity, tasks := m.tasks[i := Sent(t, false)]);
    RoleTwice(m0, i, t.role, Sent(t, false).role);
    assert WithRole(WithRole(m0, i, t.role), i, Sent(t, false).role) == m2;
    parcels := FilledData(m2, w, d, m.parcels[w].datum);
  }

  lemma RoleTwice(m: Machine, i: nat, r: Role, r': Role)
    requires i < |m.tasks|
    ensures WithRole(m, i, r).tasks == m.tasks[i := m.tasks[i].(role := r)]
    ensures WithRole(WithRole(m, i, r), i, r') == m.(tasks := m.tasks[i := m.tasks[i].(role := r')])
  {}

  lemma FilledData(m: Machine, w: nat, d: nat, count: int) returns (parcels: seq<Parcel>)
    requires WellFormed(m) && w < |m.parcels| && d < |m.parcels| && 0 <= count < DATA_SIZE
    ensures |parcels| == |m.parcels| && Filled(m, w, d, count) == m.(parcels := parcels)
        && WellFormed(m.(parcels := parcels))
    ensures forall p: nat :: p < |parcels| ==> parcels[p] == m.parcels[p].(datum := parcels[p].datum)
  {
    parcels := Filled(m, w, d, count).parcels;
  }

  /** Data may change in any packet: no addressee and no kind does. */
  lemma DataWritten(m: Machine, parcels: seq<Parcel>, m': Machine)
    requires Suited(m) && |parcels| == |m.parcels|
    requires forall p: nat :: p < |parcels| ==> parcels[p] == m.parcels[p].(datum := parcels[p].datum)
    requires m'.tasks == m.tasks && m'.parcels == parcels && m'.table == m.table
    ensures Suited(m') && Left(m').runs == Left(m).runs && Left(m').fills == Left(m).fills
  {
    forall i: nat | i < |m.tasks| ensures Suits(parcels, m.tasks[i]) { assert Suits(m.parcels, m.tasks[i]); }
    hide Suits;
    TotalSame(m.parcels, parcels, m.tasks);
  }

  lemma HandlerFills(m: Machine, i: nat, t: Task)
    requires OnTurn(m, i) && m.tasks[i].role.Handler? && (m.tasks[i].input != [] ==> m.tasks[i].input[0] < |m.parcels|)
    requires t == Sorted(m, m.tasks[i]) && t.role.Handler? && t.role.work != [] && t.role.work[0] < |m.parcels|
    requires m.parcels[t.role.work[0]].datum < DATA_SIZE && t.role.device != [] && Suits(m.parcels, t)
    requires multiset(Slots(t)) == multiset(Slots(m.tasks[i]))
    requires Plus(CostOf(m.parcels, t), Cost(0, 0, 0, if WaitingWithPacket(m.tasks[i]) then 1 else 0)) ==
             CostOf(m.parcels, m.tasks[i])
    ensures Lower(m, Next(m))
  {
    hide WellFormed, Suited, Distinct, TaskOk, Suits, CostOf, Left, Slots, Kept, Places, Next, Queue, Sorted, Manned;
    SuitsAt(m, i);
    var d := t.role.device[0];
    SentFits(m.parcels, t, false, d);
    var parcels := FillNext(m, i, t);
    var m2 := m.(currentIdentity := m.tasks[i].identity, tasks := m.tasks[i := Sent(t, false)]);
    var m3 := m2.(parcels := parcels);
    GivenAway(m, i, Sent(t, false), d, m2);
    SamePlaces(m2, m3);
    DataWritten(m2, parcels, m3);
    AtDesk(m2, m.parcels[d].identity);
    QueueCost(m3, i, d);
  }

  lemma HandlerTurn(m: Machine, i: nat)
    requires OnTurn(m, i) && m.tasks[i].role.Handler?
    ensures Lower(m, Next(m))
  {
    SuitsAt(m, i);
    SortedFits(m, m.tasks[i]);
    HandlerRest(m, i);
    var t := Sorted(m, m.tasks[i]);
    if t.role.work == [] {
      HandlerWaits(m, i, t);
    } else {
      HeadFits(m.parcels, t);
      if m.parcels[t.role.work[0]].datum >= DATA_SIZE {
        HandlerForwards(m, i, t);
      } else if t.role.device == [] {
        HandlerWaits(m, i, t);
      } else {
        HandlerFills(m, i, t);
      }
    }
  }

  lemma HeadFits(parcels: seq<Parcel>, t: Task)
    requires Suits(parcels, t) && t.role.Handler? && t.role.work != []
    ensures t.role.work[0] < |parcels|
  {
    assert t.role.work[0] in t.role.work;
  }

  // ── The whole run ─────────────────────────────────────────────────

  /** How far the scheduler's hand is from the end of the task list. */
  function Place(current: Option<nat>): nat { if current.Some? then current.value + 1 else 0 }

  /**
   * Every turn keeps the system typed, and leaves less to do or, for a task passed over, as much and one task
   * fewer to pass.
   */
  lemma TurnFalls(m: Machine)
    requires Typed(m) && m.current.Some?
    ensures Typed(Next(m))
    ensures Less(Left(Next(m)), Left(m)) || (Left(Next(m)) == Left(m) && Place(Next(m).current) < Place(m.current))
  {
    NextKept(m);
    hide Places, TaskOk, Left, Manned, Suits;
    DistinctSame(m, Next(m));
    var i := m.current.value;
    if HoldingOrWaiting(m.tasks[i]) {
      LinkKnown(m, i);
      SamePlan(m, Next(m));
    } else {
      hide Next, RunTask;
      match m.tasks[i].role
      case Device(_) => DeviceTurn(m, i);
      case Handler(_, _) => HandlerTurn(m, i);
      case Idle(_, _) => IdleTurn(m, i);
      case Worker(_, _) => WorkerTurn(m, i);
    }
  }

  lemma SamePlan(m: Machine, m': Machine)
    requires Suited(m) && m' == m.(current := m'.current)
    ensures Suited(m') && Left(m') == Left(m)
  {}

  /** The number of turns until no task is left to run. */
  ghost function Turns(m: Machine): (n: nat)
    requires Typed(m)
    decreases Left(m).runs, Left(m).fills, Left(m).hops, Left(m).moves, Place(m.current)
  {
    if m.current.None? then 0
    else
      TurnFalls(m);
      1 + Turns(Next(m))
  }

  /** Every run of a typed system ends, with each packet still in the one place it was in at the start. */
  lemma {:induction false} RunEnds(m: Machine)
    requires Typed(m)
    ensures Run(m, Turns(m)).current.None? && Typed(Run(m, Turns(m)))
    ensures forall n: nat :: n < Turns(m) ==> Run(m, n).current.Some?
    ensures EachOnce(m) ==> EachOnce(Run(m, Turns(m)))
    decreases Turns(m)
  {
    hide Left, Less, Next, EachOnce, Distinct, Suited, WellFormed;
    if m.current.Some? {
      TurnFalls(m);
      RunEnds(Next(m));
      NextKept(m);
      RunKept(m, Turns(m));
      forall n: nat | n < Turns(m) ensures Run(m, n).current.Some? {
        if n > 0 { assert Run(m, n) == Run(Next(m), n - 1); }
      }
    }
  }

  /** One turn of a run that ends. */
  lemma TurnLeft(m: Machine)
    requires Typed(m) && m.current.Some?
    ensures WellFormed(m) && Distinct(m) && Typed(Next(m))
    ensures Turns(Next(m)) == Turns(m) - 1 && Run(m, Turns(m)) == Run(Next(m), Turns(Next(m)))
  {
    hide Left, Less, Next, Distinct, Suited, WellFormed;
    TurnFalls(m);
  }

  lemma NoTurns(m: Machine)
    requires Typed(m) && m.current.None?
    ensures Turns(m) == 0 && Run(m, 0) == m
  {}
}
