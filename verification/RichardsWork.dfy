/** What the tasks of the Richards machine do with the packets' data, and which device the idle task wakes. */
module RichardsWork {
  import opened Arith
  import opened Options
  import opened RichardsLaws
  import opened RichardsMachine
  import opened Words

  /** The letters written are the next ones of the alphabet in cyclic order, and the count remembers the last. */
  lemma {:induction false} LettersCycle(count: int, n: nat)
    requires 0 <= count <= 26
    ensures forall i: nat :: i < n ==> Letters(count, n).0[i] == 65 + (count + i) % 26
    ensures 0 <= Letters(count, n).1 <= 26 && (n > 0 ==> Letters(count, n).1 == (count + n - 1) % 26 + 1)
  {
    if n > 0 {
      LettersCycle(count, n - 1);
      var (s, c) := Letters(count, n - 1);
      if n == 1 {
        assert c == count;
        assert count % 26 == if count == 26 then 0 else count;
      } else {
        var r := (count + n - 2) % 26;
        assert (count + n - 1) % 26 == (r + 1) % 26;
        assert (r + 1) % 26 == if r == 25 then 0 else r + 1;
      }
    }
  }

  /**
   * A handler with an unfinished work packet and a device packet hands out the work packet's next item: the
   * device packet carries it, the work packet counts one more, and no other packet's contents change.
   */
  lemma HandsOut(m: Machine, i: nat, work: Option<nat>)
    requires Runnable(m, i, work) && m.tasks[i].role.Handler?
    requires var r := Received(m, m.tasks[i].role, work);
             r.work != [] && r.device != [] && r.work[0] != r.device[0] && r.work[0] < |m.parcels|
             && m.parcels[r.work[0]].datum < DATA_SIZE
    ensures var r := Received(m, m.tasks[i].role, work);
            var w, d, m' := r.work[0], r.device[0], RunHandler(m, i, work);
            && d < |m.parcels| == |m'.parcels| && |m.parcels[w].data| == DATA_SIZE && m.parcels[w].datum >= 0
            && m'.parcels[d].datum == m.parcels[w].data[m.parcels[w].datum]
            && m'.parcels[w] == m.parcels[w].(datum := m.parcels[w].datum + 1)
            && forall p: nat :: p < |m.parcels| && p != w && p != d ==> m'.parcels[p] == m.parcels[p]
  {
    var r := Received(m, m.tasks[i].role, work);
    ReceivedKept(m, i, work);
    RoleKept(m, i, r);
    HandlerHeads(WithRole(m, i, r), i, r);
  }

  /** The top bit of the second word decides the exclusive-or's when the first is short. */
  lemma {:induction false} XorTop(a: nat, b: nat, w: nat)
    requires w > 0 && a < Pow2(w - 1) && Pow2(w - 1) <= b < Pow2(w)
    ensures Pow2(w - 1) <= Xor(a, b) < Pow2(w)
  {
    Pow2Succ(w);
    XorBits(a, b);
    if w > 1 {
      Pow2Succ(w - 1);
      XorTop(a / 2, b / 2, w - 1);
    } else {
      assert Pow2(0) == 1;
      assert Xor(0, 0) == 0;
    }
  }

  /**
   * The idle task's control word never leaves 1 .. 65535, and its top bit afterwards says which device has
   * been taken off hold.
   */
  lemma IdleWakes(m: Machine, i: nat)
    requires Runnable(m, i, None) && m.tasks[i].role.Idle? && m.tasks[i].role.count != 1
    requires 0 < m.tasks[i].role.control < 65536 && m.table[DEVICE_A] != i && m.table[DEVICE_B] != i
    ensures var m' := RunIdle(m, i);
            && |m'.tasks| == |m.tasks| && m'.tasks[i].role.Idle? && 0 < m'.tasks[i].role.control < 65536
            && m'.tasks[i].role.count == m.tasks[i].role.count - 1
            && var d := if m'.tasks[i].role.control >= 32768 then m.table[DEVICE_B] else m.table[DEVICE_A];
               d < |m.tasks| && m'.tasks[d] == m.tasks[d].(holding := false)
               && forall k: nat :: k < |m.tasks| && k != i && k != d ==> m'.tasks[k] == m.tasks[k]
  {
    var control := m.tasks[i].role.control;
    assert Pow2(16) == 65536 && Pow2(15) == 32768;
    XorTop(control / 2, 53256, 16);
  }

  /** A queued packet is last in its addressee's input, bears the running task's identity, and nothing else moves. */
  lemma QueueDelivers(m: Machine, i: nat, p: nat)
    requires WellFormed(m) && i < |m.tasks| && p < |m.parcels|
    ensures m.parcels[p].identity < NUM_TYPES == |m.table| && m.table[m.parcels[p].identity] < |m.tasks|
    ensures var t, m' := m.table[m.parcels[p].identity], Queue(m, i, p);
            && |m'.tasks| == |m.tasks| && |m'.parcels| == |m.parcels|
            && m'.tasks[t] == m.tasks[t].(input := m.tasks[t].input + [p])
            && m'.parcels[p] == m.parcels[p].(identity := m.currentIdentity)
            && (forall k: nat :: k < |m.tasks| && k != t ==> m'.tasks[k] == m.tasks[k])
            && (forall q: nat :: q < |m.parcels| && q != p ==> m'.parcels[q] == m.parcels[q])
  {
    assert ParcelOk(m.parcels[p]);
  }

  /**
   * The worker sends a packet on to the handler it did not send the last one to, with the next four letters
   * of the alphabet written in it and nothing handed out yet.
   */
  lemma WorkerWrites(m: Machine, i: nat, w: nat)
    requires Runnable(m, i, Some(w)) && m.tasks[i].role.Worker? && m.tasks[i].role.count <= 26
    requires m.tasks[i].role.destination == HANDLER_A || m.tasks[i].role.destination == HANDLER_B
    requires m.table[HANDLER_A] != i && m.table[HANDLER_B] != i
    ensures var r, m' := m.tasks[i].role, RunWorker(m, i, Some(w));
            var t := m.table[HANDLER_A + HANDLER_B - r.destination];
            && t < |m.tasks| == |m'.tasks| && m'.tasks[i].role.Worker?
            && m'.tasks[i].role.destination == HANDLER_A + HANDLER_B - r.destination
            && m'.tasks[t].input == m.tasks[t].input + [w]
            && w < |m'.parcels| && m'.parcels[w].datum == 0 && m'.parcels[w].kind == m.parcels[w].kind
            && |m'.parcels[w].data| == DATA_SIZE
            && forall j: nat :: j < DATA_SIZE ==> m'.parcels[w].data[j] == 65 + (r.count + j) % 26
  {
    var r := m.tasks[i].role;
    LinkKnown(m, i);
    LettersCycle(r.count, DATA_SIZE);
    var dest := if r.destination == HANDLER_A then HANDLER_B else HANDLER_A;
    var (letters, count) := Letters(r.count, DATA_SIZE);
    var p := Parcel(dest, m.parcels[w].kind, 0, letters);
    hide Letters, WellFormed, Queue;
    WorkerKept(m, i, Worker(dest, count), w, p);
    QueueDelivers(WithRole(m, i, Worker(dest, count)).(parcels := m.parcels[w := p]), i, w);
  }
}
