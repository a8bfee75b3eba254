/** Packets linked through an arena, and the abstract queues they stand for. */
module RichardsLinks {
  import opened Options
  import opened RichardsLaws
  import opened RichardsMachine

  datatype Packet = Packet(link: Option<nat>, identity: nat, kind: int, datum: int, data: seq<int>)

  datatype Record =
    | DeviceData(pending: Option<nat>)
    | HandlerData(workIn: Option<nat>, deviceIn: Option<nat>)
    | IdleData(control: nat, count: int)
    | WorkerData(destination: nat, count: int)

  datatype Tcb = Tcb(link: Option<nat>, identity: nat, priority: int, input: Option<nat>, packetPending: bool,
                     taskWaiting: bool, taskHolding: bool, data: Record)

  /** Following links from head visits the packets of l and ends. */
  ghost predicate Linked(packets: seq<Packet>, head: Option<nat>, l: seq<nat>)
  {
    && head == (if l == [] then None else Some(l[0]))
    && forall i: nat :: i < |l| ==> LinkAt(packets, l, i)
  }

  ghost predicate LinkAt(packets: seq<Packet>, l: seq<nat>, i: nat)
    requires i < |l|
  {
    l[i] < |packets| && packets[l[i]].link == if i + 1 < |l| then Some(l[i + 1]) else None
  }

  lemma LinkedTail(packets: seq<Packet>, head: Option<nat>, l: seq<nat>)
    requires Linked(packets, head, l) && l != []
    ensures l[0] < |packets| && Linked(packets, packets[l[0]].link, l[1..])
  {
    assert LinkAt(packets, l, 0);
    forall i: nat | i < |l| - 1 ensures LinkAt(packets, l[1..], i) { assert LinkAt(packets, l, i + 1); }
  }

  lemma LinkedFrame(packets: seq<Packet>, packets': seq<Packet>, head: Option<nat>, l: seq<nat>)
    requires Linked(packets, head, l) && |packets| == |packets'|
    requires forall x :: x in l && x < |packets| ==> packets'[x].link == packets[x].link
    ensures Linked(packets', head, l)
  {
    forall i: nat | i < |l| ensures LinkAt(packets', l, i) { assert LinkAt(packets, l, i); }
  }

  lemma LinkedHead(packets: seq<Packet>, head: Option<nat>, l: seq<nat>)
    requires Linked(packets, head, l)
    ensures head == if l == [] then None else Some(l[0])
  {}

  lemma LinkedAt(packets: seq<Packet>, head: Option<nat>, l: seq<nat>, k: nat)
    requires Linked(packets, head, l)
    ensures k < |l| ==> l[k] < |packets| && packets[l[k]].link == if k + 1 < |l| then Some(l[k + 1]) else None
  {
    if k < |l| { assert LinkAt(packets, l, k); }
  }

  /** The arena after packet p joins the end of list l. */
  function Appended(packets: seq<Packet>, l: seq<nat>, p: nat): (r: seq<Packet>)
    requires p < |packets| && (l != [] ==> l[|l| - 1] < |packets|)
    ensures |r| == |packets|
  {
    var s := packets[p := packets[p].(link := None)];
    if l == [] then s else s[l[|l| - 1] := s[l[|l| - 1]].(link := Some(p))]
  }

  ghost predicate Apart(l: seq<nat>) { forall i: nat, j: nat :: i < j < |l| ==> l[i] != l[j] }

  lemma AppendedLinked(packets: seq<Packet>, head: Option<nat>, l: seq<nat>, p: nat)
    requires Linked(packets, head, l) && p < |packets| && p !in l && Apart(l)
    ensures (l != [] ==> LinkAt(packets, l, |l| - 1)) && (l != [] ==> l[|l| - 1] < |packets|)
    ensures Linked(Appended(packets, l, p), if l == [] then Some(p) else head, l + [p])
  {
    if l != [] { assert LinkAt(packets, l, |l| - 1); }
    var r, l' := Appended(packets, l, p), l + [p];
    forall i: nat | i < |l'| ensures LinkAt(r, l', i) {
      if i < |l| { assert LinkAt(packets, l, i); }
    }
  }

  // ── The abstraction ───────────────────────────────────────────────

  function ParcelOf(p: Packet): Parcel { Parcel(p.identity, p.kind, p.datum, p.data) }

  ghost predicate RoleRep(packets: seq<Packet>, d: Record, r: Role)
  {
    match d
    case DeviceData(pending) => r == Device(pending)
    case HandlerData(workIn, deviceIn) => r.Handler? && Linked(packets, workIn, r.work)
      && Linked(packets, deviceIn, r.device)
    case IdleData(control, count) => r == Idle(control, count)
    case WorkerData(destination, count) => r == Worker(destination, count)
  }

  /** A control block stands for a task; its packet_pending says whether input is non-empty. */
  ghost predicate TaskRep(packets: seq<Packet>, t: Tcb, a: Task)
  {
    && t.link == a.link && t.identity == a.identity && t.priority == a.priority
    && t.taskWaiting == a.waiting && t.taskHolding == a.holding
    && Linked(packets, t.input, a.input) && (t.packetPending <==> a.input != [])
    && RoleRep(packets, t.data, a.role)
  }

  ghost predicate Rep(packets: seq<Packet>, tasks: seq<Tcb>, m: Machine)
  {
    && |packets| == |m.parcels| && |tasks| == |m.tasks|
    && (forall p: nat :: p < |packets| ==> ParcelOf(packets[p]) == m.parcels[p])
    && (forall i: nat :: i < |tasks| ==> TaskRep(packets, tasks[i], m.tasks[i]))
  }

  /** No packet is in two places. */
  ghost predicate Distinct(m: Machine) { forall p: nat :: Places(m)[p] <= 1 }

  lemma SlotsApart(m: Machine, i: nat)
    requires Distinct(m) && i < |m.tasks|
    ensures Apart(Slots(m.tasks[i]))
  {
    hide Slots;
    var s := Slots(m.tasks[i]);
    forall a: nat, b: nat | a < b < |s| ensures s[a] != s[b] {
      GatherHas(m.tasks, i, s[a]);
      assert Places(m)[s[a]] <= 1;
      TwiceIn(s, a, b);
    }
  }

  lemma TwiceIn(s: seq<nat>, a: nat, b: nat)
    requires a < b < |s|
    ensures s[a] == s[b] ==> multiset(s)[s[a]] >= 2
  {
    assert s == s[..b] + s[b..];
    assert s[..b][a] == s[a] && s[b..][0] == s[b];
  }

  lemma InMultiset(s: seq<nat>, x: nat)
    ensures x in s <==> multiset(s)[x] >= 1
  {}

  /** Two tasks share no packet. */
  lemma TasksApart(m: Machine, i: nat, j: nat, x: nat)
    requires Distinct(m) && i < |m.tasks| && j < |m.tasks| && i != j && x in Slots(m.tasks[i])
    ensures x !in Slots(m.tasks[j])
  {
    hide Slots, Gather;
    GatherTwo(m.tasks, if i < j then i else j, if i < j then j else i, x);
    assert Places(m)[x] <= 1;
    InMultiset(Slots(m.tasks[i]), x);
    InMultiset(Slots(m.tasks[j]), x);
  }

  lemma NotPlaced(m: Machine, p: nat, i: nat)
    requires Places(m)[p] == 0 && i < |m.tasks|
    ensures p !in Slots(m.tasks[i])
  {
    hide Slots, Gather;
    GatherHas(m.tasks, i, p);
    InMultiset(Slots(m.tasks[i]), p);
  }

  /** A task sees no change when the links of its packets do not change. */
  lemma TaskFrame(packets: seq<Packet>, packets': seq<Packet>, t: Tcb, a: Task)
    requires TaskRep(packets, t, a) && |packets| == |packets'|
    requires forall x :: x in Slots(a) && x < |packets| ==> packets'[x].link == packets[x].link
    ensures TaskRep(packets', t, a)
  {
    LinkedFrame(packets, packets', t.input, a.input);
    if t.data.HandlerData? {
      LinkedFrame(packets, packets', t.data.workIn, a.role.work);
      LinkedFrame(packets, packets', t.data.deviceIn, a.role.device);
    }
  }

  /** Replacing one block and its task, and changing no link outside them. */
  lemma RepUpdate(packets: seq<Packet>, packets': seq<Packet>, tasks: seq<Tcb>, m: Machine, m': Machine,
                  i: nat, t: Tcb)
    requires Rep(packets, tasks, m) && i < |tasks| && |packets'| == |packets| == |m'.parcels| && |m'.tasks| == |m.tasks|
    requires forall p: nat :: p < |packets| ==> ParcelOf(packets'[p]) == m'.parcels[p]
    requires forall j: nat :: j < |tasks| && j != i ==> m'.tasks[j] == m.tasks[j]
    requires forall j: nat, x :: j < |tasks| && j != i && x in Slots(m.tasks[j]) && x < |packets| ==>
               packets'[x].link == packets[x].link
    requires TaskRep(packets', t, m'.tasks[i])
    ensures Rep(packets', tasks[i := t], m')
  {
    forall j: nat | j < |tasks| ensures TaskRep(packets', tasks[i := t][j], m'.tasks[j]) {
      if j != i { TaskFrame(packets, packets', tasks[j], m.tasks[j]); }
    }
  }

  // ── Steps on the arena ────────────────────────────────────────────

  /** Packet p, in nobody's keeping, joins the input of task t. */
  lemma QueueRep(packets: seq<Packet>, tasks: seq<Tcb>, m: Machine, i: nat, p: nat, t: nat, packets': seq<Packet>,
                 b: Tcb)
    requires WellFormed(m) && Distinct(m) && Rep(packets, tasks, m) && i < |tasks| && p < |packets| && Places(m)[p] == 0
    requires t == m.table[m.parcels[p].identity] && t < |tasks|
    requires var l := m.tasks[t].input;
             (l != [] ==> l[|l| - 1] < |packets|)
             && packets' == Appended(packets[p := packets[p].(identity := m.currentIdentity)], l, p)
             && b == tasks[t].(input := if l == [] then Some(p) else tasks[t].input, packetPending := true)
    ensures Rep(packets', tasks[t := b], Queue(m, i, p))
  {
    hide WellFormed, Places;
    var l := m.tasks[t].input;
    assert TaskRep(packets, tasks[t], m.tasks[t]);
    NotPlaced(m, p, t);
    SlotsApart(m, t);
    var packets0 := packets[p := packets[p].(identity := m.currentIdentity)];
    assert p !in l by { assert forall x :: x in l ==> x in Slots(m.tasks[t]); }
    LinkedFrame(packets, packets0, tasks[t].input, l);
    assert Apart(l) by { InputApart(m.tasks[t]); }
    AppendedLinked(packets0, tasks[t].input, l, p);
    KeptFrame(packets, packets', tasks[t], m.tasks[t], p, l);
    forall j: nat, x | j < |tasks| && j != t && x in Slots(m.tasks[j]) && x < |packets|
      ensures packets'[x].link == packets[x].link
    {
      NotPlaced(m, p, j);
      if l != [] && x == l[|l| - 1] {
        assert x in Slots(m.tasks[t]);
        TasksApart(m, t, j, x);
      }
    }
    QueueShape(m, i, p);
    RepUpdate(packets, packets', tasks, m, Queue(m, i, p), t, b);
  }

  lemma QueueShape(m: Machine, i: nat, p: nat)
    requires WellFormed(m) && i < |m.tasks| && p < |m.parcels|
    ensures var m' := Queue(m, i, p); var t := m.table[m.parcels[p].identity];
            && m'.tasks == m.tasks[t := m.tasks[t].(input := m.tasks[t].input + [p])]
            && m'.parcels == m.parcels[p := m.parcels[p].(identity := m.currentIdentity)]
  {
    assert ParcelOk(m.parcels[p]);
  }

  lemma InputApart(a: Task)
    requires Apart(Slots(a))
    ensures Apart(a.input) && forall x :: x in a.input ==> x !in Kept(a.role)
  {
    hide Kept;
    var s, k := Slots(a), Kept(a.role);
    assert forall i: nat :: i < |a.input| ==> s[i] == a.input[i];
    forall i: nat, j: nat | i < |a.input| && j < |k| ensures a.input[i] != k[j] {
      assert s[i] != s[|a.input| + j];
    }
  }

  /** Appending to the input leaves the lists the task keeps alone. */
  lemma KeptFrame(packets: seq<Packet>, packets': seq<Packet>, t: Tcb, a: Task, p: nat, l: seq<nat>)
    requires RoleRep(packets, t.data, a.role) && Apart(Slots(a)) && l == a.input && p !in Slots(a)
    requires p < |packets| && (l != [] ==> l[|l| - 1] < |packets|) && |packets'| == |packets|
    requires forall x: nat :: x < |packets| && x != p && (l != [] ==> x != l[|l| - 1]) ==>
        packets'[x].link == packets[x].link
    ensures RoleRep(packets', t.data, a.role)
  {
    InputApart(a);
    if t.data.HandlerData? {
      assert forall x :: x in a.role.work || x in a.role.device ==> x in Kept(a.role) && x in Slots(a);
      LinkedFrame(packets, packets', t.data.workIn, a.role.work);
      LinkedFrame(packets, packets', t.data.deviceIn, a.role.device);
    }
  }

  // ── Steps of one task on the arena ────────────────────────────────

  lemma DistinctLess(m: Machine, m': Machine, p: nat)
    requires Distinct(m) && Places(m') + multiset{p} == Places(m)
    ensures Distinct(m') && Places(m')[p] == 0
  {
    hide Places;
    forall q: nat ensures Places(m')[q] <= 1 && (q == p ==> Places(m')[q] == 0) {
      assert (Places(m') + multiset{p})[q] == Places(m)[q] <= 1;
    }
  }

  lemma DistinctMore(m: Machine, m': Machine, p: nat)
    requires Distinct(m) && Places(m') == Places(m) + multiset{p} && Places(m)[p] == 0
    ensures Distinct(m')
  {
    hide Places;
  }

  lemma DistinctSame(m: Machine, m': Machine)
    requires Distinct(m) && Places(m') == Places(m)
    ensures Distinct(m')
  {}

  lemma ParcelFull(m: Machine, w: nat)
    requires WellFormed(m) && w < |m.parcels|
    ensures ParcelOk(m.parcels[w])
  {}

  lemma CurrentBelow(m: Machine)
    requires WellFormed(m)
    ensures m.current.Some? ==> m.current.value < |m.tasks|
  {}

  lemma IdentityKept(m: Machine, identity: nat)
    requires WellFormed(m) && identity < NUM_TYPES
    ensures WellFormed(m.(currentIdentity := identity))
  {}

  lemma RepSame(packets: seq<Packet>, tasks: seq<Tcb>, m: Machine, m': Machine)
    requires Rep(packets, tasks, m) && m'.parcels == m.parcels && m'.tasks == m.tasks
    ensures Rep(packets, tasks, m')
  {}

  /** After a handler has received its packet no packet is in two places. */
  lemma ReceivedDistinct(m: Machine, i: nat, work: Option<nat>)
    requires Runnable(m, i, work) && Distinct(m) && (work.Some? ==> Places(m)[work.value] == 0)
        && m.tasks[i].role.Handler?
    ensures Distinct(WithRole(m, i, Received(m, m.tasks[i].role, work)))
  {
    hide Places, Distinct, WellFormed, Received;
    var r := Received(m, m.tasks[i].role, work);
    ReceivedPlaces(m, m.tasks[i].role, work);
    RolePlaces(m, i, r, multiset{}, InHand(work));
    var m1 := WithRole(m, i, r);
    assert Places(m1) + multiset{} == Places(m1);
    if work.Some? {
      DistinctMore(m, m1, work.value);
    } else {
      assert Places(m) + InHand(work) == Places(m);
      DistinctSame(m, m1);
    }
  }

  /** Only the block of task i changes, and no link. */
  lemma BlockRep(packets: seq<Packet>, tasks: seq<Tcb>, m: Machine, i: nat, t: Tcb, a: Task, current: Option<nat>,
                 held: nat)
    requires Rep(packets, tasks, m) && i < |tasks| && TaskRep(packets, t, a)
    ensures Rep(packets, tasks[i := t], WithTask(m, i, a).(current := current, held := held))
  {
    RepUpdate(packets, packets, tasks, m, WithTask(m, i, a).(current := current, held := held), i, t);
  }

  /** Only the data record of task i changes. */
  lemma RecordRep(packets: seq<Packet>, tasks: seq<Tcb>, m: Machine, i: nat, d: Record, r: Role)
    requires Rep(packets, tasks, m) && i < |tasks| && RoleRep(packets, d, r)
    ensures Rep(packets, tasks[i := tasks[i].(data := d)], WithRole(m, i, r))
  {
    hide Linked;
    assert TaskRep(packets, tasks[i], m.tasks[i]);
    BlockRep(packets, tasks, m, i, tasks[i].(data := d), m.tasks[i].(role := r), m.current, m.held);
  }

  /** Only what packet p carries changes. */
  lemma ParcelRep(packets: seq<Packet>, tasks: seq<Tcb>, m: Machine, p: nat, b: Packet)
    requires Rep(packets, tasks, m) && p < |packets| && b.link == packets[p].link
    ensures Rep(packets[p := b], tasks, m.(parcels := m.parcels[p := ParcelOf(b)]))
  {
    forall j: nat | j < |tasks| ensures TaskRep(packets[p := b], tasks[j], m.tasks[j]) {
      TaskFrame(packets, packets[p := b], tasks[j], m.tasks[j]);
    }
  }

  /** A handler appends the packet in hand to the list of its kind. */
  lemma ReceiveRep(packets: seq<Packet>, tasks: seq<Tcb>, m: Machine, i: nat, w: nat, packets': seq<Packet>, d: Record)
    requires Rep(packets, tasks, m) && Distinct(m) && Places(m)[w] == 0 && w < |packets|
    requires i < |tasks| && m.tasks[i].role.Handler? && tasks[i].data.HandlerData?
    requires var r, t := m.tasks[i].role, tasks[i].data; var toWork := m.parcels[w].kind == WORK_PACKET_KIND;
             var l := if toWork then r.work else r.device; var h := if toWork then t.workIn else t.deviceIn;
             var h' := if l == [] then Some(w) else h;
             (l != [] ==> l[|l| - 1] < |packets|) && packets' == Appended(packets, l, w)
             && d == if toWork then HandlerData(h', t.deviceIn) else HandlerData(t.workIn, h')
    ensures Rep(packets', tasks[i := tasks[i].(data := d)], WithRole(m, i, Received(m, m.tasks[i].role, Some(w))))
  {
    hide Places, Gather, Distinct, Slots, TaskRep;
    var r, t := m.tasks[i].role, tasks[i];
    var toWork := m.parcels[w].kind == WORK_PACKET_KIND;
    var l := if toWork then r.work else r.device;
    assert TaskRep(packets, t, m.tasks[i]);
    NotPlaced(m, w, i);
    SlotsApart(m, i);
    ReceiveTask(packets, packets', t, m.tasks[i], w, toWork, d);
    assert l != [] ==> l[|l| - 1] in Slots(m.tasks[i]) by { KeptHas(m.tasks[i]); }
    forall j: nat, x | j < |tasks| && j != i && x in Slots(m.tasks[j]) && x < |packets|
      ensures packets'[x].link == packets[x].link
    {
      NotPlaced(m, w, j);
      if l != [] { TasksApart(m, i, j, l[|l| - 1]); }
    }
    RepUpdate(packets, packets', tasks, m, WithRole(m, i, Received(m, r, Some(w))), i, t.(data := d));
  }

  lemma InputHas(a: Task)
    ensures forall x :: x in a.input ==> x in Slots(a)
  {}

  lemma KeptHas(a: Task)
    requires a.role.Handler?
    ensures forall x :: x in a.input || x in a.role.work || x in a.role.device ==> x in Slots(a)
  {}

  lemma ReceiveTask(packets: seq<Packet>, packets': seq<Packet>, t: Tcb, a: Task, w: nat, toWork: bool, d: Record)
    requires TaskRep(packets, t, a) && a.role.Handler? && t.data.HandlerData? && Apart(Slots(a)) && w !in Slots(a)
    requires w < |packets|
    requires var l := if toWork then a.role.work else a.role.device; var h := if toWork then t.data.workIn
        else t.data.deviceIn;
             var h' := if l == [] then Some(w) else h;
             (l != [] ==> l[|l| - 1] < |packets|) && packets' == Appended(packets, l, w)
             && d == if toWork then HandlerData(h', t.data.deviceIn) else HandlerData(t.data.workIn, h')
    ensures TaskRep(packets', t.(data := d),
                    a.(role := if toWork then a.role.(work := a.role.work + [w])
                      else a.role.(device := a.role.device + [w])))
  {
    hide Linked;
    RoleApart(a);
    KeptHas(a);
    var r := a.role;
    var l, o := if toWork then r.work else r.device, if toWork then r.device else r.work;
    AppendedLinked(packets, if toWork then t.data.workIn else t.data.deviceIn, l, w);
    LinkedFrame(packets, packets', t.input, a.input);
    LinkedFrame(packets, packets', if toWork then t.data.deviceIn else t.data.workIn, o);
  }

  /** The lists of a handler share no packet with each other or with its input. */
  lemma RoleApart(a: Task)
    requires Apart(Slots(a)) && a.role.Handler?
    ensures Apart(a.role.work) && Apart(a.role.device)
    ensures forall x :: x in a.role.work ==> x !in a.role.device
    ensures forall x :: x in a.input ==> x !in a.role.work && x !in a.role.device
  {
    var s, n, w, d := Slots(a), |a.input|, a.role.work, a.role.device;
    InputApart(a);
    forall i: nat, j: nat | i < j < |w| ensures w[i] != w[j] { assert s[n + i] == w[i] && s[n + j] == w[j]; }
    forall i: nat, j: nat | i < j < |d| ensures d[i] != d[j] {
      assert s[n + |w| + i] == d[i] && s[n + |w| + j] == d[j];
    }
    forall i: nat, j: nat | i < |w| && j < |d| ensures w[i] != d[j] {
      assert s[n + i] == w[i] && s[n + |w| + j] == d[j];
    }
  }
}
