/** The scheduler's central law: no task that could run has a higher priority than the one that is looked at. */
module RichardsPriority {
  import opened Options
  import opened RichardsLaws
  import opened RichardsMachine
  import opened Words

  /** Links go down the priorities one by one, with nothing in between and nothing below the last. */
  ghost predicate Chained(m: Machine)
  {
    forall i: nat, k: nat :: i < |m.tasks| && k < |m.tasks| && k != i ==> Steps(m, i, k)
  }

  /** As far as task k goes, i links to the task of the next lower priority, or to none as the lowest. */
  ghost predicate Steps(m: Machine, i: nat, k: nat)
    requires i < |m.tasks| && k < |m.tasks|
  {
    var a, b := m.tasks[i], m.tasks[k];
    && b.priority != a.priority
    && match a.link
       case None => b.priority > a.priority
       case Some(j) => j < i && m.tasks[j].priority < a.priority
                       && (b.priority > a.priority || b.priority <= m.tasks[j].priority)
  }

  /** Everything of a higher priority than task i is on hold or waits without a packet. */
  ghost predicate PriorTo(m: Machine, i: nat)
    requires i < |m.tasks|
  {
    forall k: nat :: k < |m.tasks| && m.tasks[k].priority > m.tasks[i].priority ==> HoldingOrWaiting(m.tasks[k])
  }

  /** The same of the current task; at the end of the list, of all tasks. */
  ghost predicate Prior(m: Machine)
  {
    match m.current
    case None => forall k: nat :: k < |m.tasks| ==> HoldingOrWaiting(m.tasks[k])
    case Some(i) => i < |m.tasks| && PriorTo(m, i)
  }

  lemma ChainedShape(m: Machine, m': Machine)
    requires Chained(m) && SameShape(m, m')
    ensures Chained(m')
  {
    hide Chained;
    ChainedTasks(m, m');
  }

  lemma ChainedTasks(m: Machine, m': Machine)
    requires Chained(m) && |m'.tasks| == |m.tasks|
    requires forall i: nat :: i < |m.tasks| ==> SameTask(m.tasks[i], m'.tasks[i])
    ensures Chained(m')
  {
    forall i: nat, k: nat | i < |m.tasks| && k < |m.tasks| && k != i ensures Steps(m', i, k) {
      assert Steps(m, i, k) && SameTask(m.tasks[i], m'.tasks[i]) && SameTask(m.tasks[k], m'.tasks[k]);
      if m.tasks[i].link.Some? { assert SameTask(m.tasks[m.tasks[i].link.value], m'.tasks[m.tasks[i].link.value]); }
    }
  }

  /** Only task i has changed. */
  ghost predicate OnlyTask(m: Machine, m': Machine, i: nat)
  {
    && i < |m.tasks| == |m'.tasks| && SameTask(m.tasks[i], m'.tasks[i])
    && forall k: nat :: k < |m.tasks| && k != i ==> m'.tasks[k] == m.tasks[k]
  }

  lemma OnlyPrior(m: Machine, m': Machine, i: nat)
    requires OnlyTask(m, m', i) && PriorTo(m, i)
    ensures PriorTo(m', i)
  {}

  lemma OnlyChained(m: Machine, m': Machine, i: nat)
    requires OnlyTask(m, m', i) && Chained(m)
    ensures Chained(m')
  {
    hide Chained;
    forall k: nat | k < |m.tasks| ensures SameTask(m.tasks[k], m'.tasks[k]) {}
    ChainedTasks(m, m');
  }

  /** Passing over a task that cannot run. */
  lemma PassedOver(m: Machine, i: nat)
    requires Chained(m) && i < |m.tasks| && PriorTo(m, i) && HoldingOrWaiting(m.tasks[i])
    requires m.current == m.tasks[i].link && (m.current.Some? ==> m.current.value < |m.tasks|)
    ensures Prior(m)
  {
    forall k: nat | k < |m.tasks| && (m.current.None? || m.tasks[k].priority > m.tasks[m.current.value].priority)
      ensures HoldingOrWaiting(m.tasks[k])
    {
      if k != i { assert Steps(m, i, k); }
    }
  }

  lemma HoldPrior(m: Machine, i: nat)
    requires WellFormed(m) && Chained(m) && i < |m.tasks| && PriorTo(m, i)
    ensures Prior(HoldSelf(m, i))
  {
    LinkKnown(m, i);
    hide WellFormed, Chained, PriorTo;
    var m' := HoldSelf(m, i);
    OnlyPrior(m, m', i);
    OnlyChained(m, m', i);
    PassedOver(m', i);
  }

  lemma WaitPrior(m: Machine, i: nat)
    requires i < |m.tasks| && PriorTo(m, i)
    ensures Prior(MarkWaiting(m, i))
  {
    OnlyPrior(m, MarkWaiting(m, i), i);
  }

  /** A packet for a waiting task of higher priority makes that task the next one. */
  lemma QueuePrior(m: Machine, i: nat, p: nat)
    requires WellFormed(m) && i < |m.tasks| && p < |m.parcels| && PriorTo(m, i)
    ensures Prior(Queue(m, i, p))
  {
    assert ParcelOk(m.parcels[p]);
  }

  lemma ReleasePrior(m: Machine, i: nat, d: nat)
    requires WellFormed(m) && i < |m.tasks| && d < NUM_TYPES && PriorTo(m, i)
    ensures Prior(Release(m, i, d))
  {}

  // ── Every kind of task ────────────────────────────────────────────

  lemma DevicePrior(m: Machine, i: nat, work: Option<nat>)
    requires Runnable(m, i, work) && m.tasks[i].role.Device? && Chained(m) && PriorTo(m, i)
    ensures Prior(RunDevice(m, i, work))
  {
    hide WellFormed, Queue, TaskOk, Chained, PriorTo, Slots, Prior, HoldSelf, MarkWaiting;
    var t := m.tasks[i];
    match work
    case None =>
      if t.role.pending.None? {
        WaitPrior(m, i);
      } else {
        PendingKnown(m, i);
        RoleKept(m, i, Device(None));
        OnlyPrior(m, WithRole(m, i, Device(None)), i);
        QueuePrior(WithRole(m, i, Device(None)), i, t.role.pending.value);
      }
    case Some(w) =>
      var m1 := WithRole(m, i, Device(Some(w)));
      RoleKept(m, i, Device(Some(w)));
      OnlyPrior(m, m1, i);
      OnlyChained(m, m1, i);
      HoldPrior(m1, i);
  }

  lemma HandlerPrior(m: Machine, i: nat, work: Option<nat>)
    requires Runnable(m, i, work) && m.tasks[i].role.Handler? && PriorTo(m, i)
    ensures Prior(RunHandler(m, i, work))
  {
    hide WellFormed, Queue, TaskOk, PriorTo, Slots, Kept, Prior, MarkWaiting, Filled;
    var r := Received(m, m.tasks[i].role, work);
    ReceivedKept(m, i, work);
    RoleKept(m, i, r);
    var m1 := WithRole(m, i, r);
    OnlyPrior(m, m1, i);
    if r.work == [] {
      WaitPrior(m1, i);
    } else {
      HandlerHeads(m1, i, r);
      HandledKept(m, i, work);
      var w := r.work[0];
      var count := m1.parcels[w].datum;
      if count >= DATA_SIZE {
        var m2 := WithRole(m1, i, r.(work := r.work[1..]));
        RoleKept(m1, i, r.(work := r.work[1..]));
        OnlyPrior(m1, m2, i);
        QueuePrior(m2, i, w);
      } else if r.device == [] {
        WaitPrior(m1, i);
      } else {
        var m2 := WithRole(m1, i, r.(device := r.device[1..]));
        RoleKept(m1, i, r.(device := r.device[1..]));
        FilledKept(m2, w, r.device[0], count);
        var m3 := Filled(m2, w, r.device[0], count);
        OnlyPrior(m1, m3, i);
        QueuePrior(m3, i, r.device[0]);
      }
    }
  }

  lemma IdlePrior(m: Machine, i: nat)
    requires Runnable(m, i, None) && m.tasks[i].role.Idle? && Chained(m) && PriorTo(m, i)
    ensures Prior(RunIdle(m, i))
  {
    hide WellFormed, TaskOk, Chained, PriorTo, Prior, HoldSelf, Release, Xor;
    var r := m.tasks[i].role;
    var c := r.count - 1;
    var control := if c == 0 then r.control
                   else if r.control % 2 == 0 then r.control / 2 else Xor(r.control / 2, 53256);
    LinkKnown(m, i);
    RoleKept(m, i, Idle(control, c));
    var m1 := WithRole(m, i, Idle(control, c));
    OnlyPrior(m, m1, i);
    OnlyChained(m, m1, i);
    if c == 0 { HoldPrior(m1, i); } else { ReleasePrior(m1, i, if r.control % 2 == 0 then DEVICE_A else DEVICE_B); }
  }

  lemma WorkerPrior(m: Machine, i: nat, work: Option<nat>)
    requires Runnable(m, i, work) && m.tasks[i].role.Worker? && PriorTo(m, i)
    ensures Prior(RunWorker(m, i, work))
  {
    hide WellFormed, TaskOk, PriorTo, Prior, Queue, MarkWaiting, Letters;
    LinkKnown(m, i);
    match work
    case None => WaitPrior(m, i);
    case Some(w) =>
      var dest := if m.tasks[i].role.destination == HANDLER_A then HANDLER_B else HANDLER_A;
      var (letters, count) := Letters(m.tasks[i].role.count, DATA_SIZE);
      var p := Parcel(dest, m.parcels[w].kind, 0, letters);
      WorkerKept(m, i, Worker(dest, count), w, p);
      var m1 := WithRole(m, i, Worker(dest, count)).(parcels := m.parcels[w := p]);
      OnlyPrior(m, m1, i);
      QueuePrior(m1, i, w);
  }

  // ── The whole run ─────────────────────────────────────────────────

  lemma NextPrior(m: Machine)
    requires WellFormed(m) && Chained(m) && Prior(m) && m.current.Some?
    ensures Chained(Next(m)) && Prior(Next(m))
  {
    hide RunDevice, RunHandler, RunWorker, RunIdle, TaskOk, Slots, Chained, PriorTo;
    NextKept(m);
    ChainedShape(m, Next(m));
    var i := m.current.value;
    var t := m.tasks[i];
    LinkKnown(m, i);
    if HoldingOrWaiting(t) {
      var m' := m.(current := t.link);
      OnlyPrior(m, m', i);
      OnlyChained(m, m', i);
      PassedOver(m', i);
    } else {
      var m1 := m.(currentIdentity := t.identity);
      var work := None;
      OnlyPrior(m, m1, i);
      OnlyChained(m, m1, i);
      if WaitingWithPacket(t) {
        TakenKept(m1, i);
        work := Some(t.input[0]);
        var m2 := Taken(m1, i);
        OnlyPrior(m1, m2, i);
        OnlyChained(m1, m2, i);
        m1 := m2;
      }
      match t.role
      case Device(_) => DevicePrior(m1, i, work);
      case Handler(_, _) => HandlerPrior(m1, i, work);
      case Idle(_, _) => IdlePrior(m1, i);
      case Worker(_, _) => WorkerPrior(m1, i, work);
    }
  }

  /**
   * In a run that starts at the head of a task list in falling order of priority, whatever task is current
   * at any turn, all tasks of higher priority are on hold or wait without a packet; and when the run has
   * ended, all tasks are.
   */
  lemma {:induction false} RunPrior(m: Machine, n: nat)
    requires WellFormed(m) && Chained(m) && Prior(m)
    ensures Chained(Run(m, n)) && Prior(Run(m, n))
    decreases n
  {
    hide Next, Chained, PriorTo, WellFormed;
    if n > 0 && m.current.Some? {
      NextKept(m);
      NextPrior(m);
      RunPrior(Next(m), n - 1);
    }
  }

  /** The head of the list has nothing before it. */
  lemma HeadPrior(m: Machine)
    requires m.current.Some? && m.current.value < |m.tasks|
    requires forall k: nat :: k < |m.tasks| ==> m.tasks[k].priority <= m.tasks[m.current.value].priority
    ensures Prior(m)
  {}
}
