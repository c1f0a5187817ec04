/** The pool of terminal lines: cli/progress.go. A free line is an index in a buffered
    channel; taking it and marking it are two steps, and so are idling and returning it. */
module Progress {
  datatype Status = Idle | Running | Done | Failed

  datatype Slot = Slot(desc: string, msg: string, status: Status)

  datatype Pool = Pool(slots: seq<Slot>, free: seq<nat>)

  function NumSlots(n: int): nat
    ensures NumSlots(n) >= 1 && (n >= 1 ==> NumSlots(n) == n)
  {
    if n <= 0 then 1 else n
  }

  function NewPool(n: nat): Pool {
    Pool(seq(n, i => Slot("", "", Idle)), seq(n, i => i))
  }

  // ----- the steps, each under the lock or on the channel -----------------

  function Received(p: Pool): Pool
    requires p.free != []
  {
    p.(free := p.free[1..])
  }

  function Started(p: Pool, idx: nat, desc: string): Pool
    requires idx < |p.slots|
  {
    p.(slots := p.slots[idx := Slot(desc, "Starting...", Running)])
  }

  function Reported(p: Pool, idx: nat, msg: string): Pool
    requires idx < |p.slots|
  {
    p.(slots := p.slots[idx := p.slots[idx].(msg := msg)])
  }

  function Finished(p: Pool, idx: nat, msg: string, status: Status): Pool
    requires idx < |p.slots|
  {
    p.(slots := p.slots[idx := p.slots[idx].(msg := msg, status := status)])
  }

  function Idled(p: Pool, idx: nat): Pool
    requires idx < |p.slots|
  {
    p.(slots := p.slots[idx := p.slots[idx].(status := Idle)])
  }

  function Sent(p: Pool, idx: nat): Pool { p.(free := p.free + [idx]) }

  /** The channel's buffer holds one index per slot; a send beyond that blocks. */
  predicate CanSend(p: Pool) { |p.free| < |p.slots| }

  class Progress {
    var slots: seq<Slot>
    var freeCh: seq<nat>

    function View(): Pool
      reads this
    {
      Pool(slots, freeCh)
    }

    /** The channel holds indices of lines, and no more than its buffer. */
    predicate Valid()
      reads this
    {
      |freeCh| <= |slots| && forall i | 0 <= i < |freeCh| :: freeCh[i] < |slots|
    }

    constructor (numSlots: int)
      ensures Valid() && View() == NewPool(NumSlots(numSlots))
      ensures |slots| == |freeCh| == if numSlots <= 0 then 1 else numSlots
      ensures forall i | 0 <= i < |slots| :: slots[i] == Slot("", "", Idle) && freeCh[i] == i
    {
      var n := if numSlots <= 0 then 1 else numSlots;
      var lines: seq<Slot>, free: seq<nat> := [], [];
      for i := 0 to n
        invariant lines == NewPool(i).slots && free == NewPool(i).free
      {
        lines := lines + [Slot("", "", Idle)];
        free := free + [i];
      }
      slots, freeCh := lines, free;
    }

    /** Blocks while no line is free. */
    method Acquire(desc: string) returns (idx: nat)
      requires Valid() && freeCh != []
      modifies this
      ensures Valid() && idx == old(freeCh[0]) && freeCh == old(freeCh[1..])
      ensures View() == Started(Received(old(View())), idx, desc)
      ensures slots == old(slots)[idx := Slot(desc, "Starting...", Running)]
    {
      idx, freeCh := freeCh[0], freeCh[1..];
      slots := slots[idx := slots[idx].(desc := desc)];
      slots := slots[idx := slots[idx].(msg := "Starting...")];
      slots := slots[idx := slots[idx].(status := Running)];
    }

    method Release(idx: nat)
      requires Valid() && idx < |slots| && CanSend(View())
      modifies this
      ensures Valid() && View() == Sent(Idled(old(View()), idx), idx)
      ensures freeCh == old(freeCh) + [idx]
      ensures slots == old(slots)[idx := Slot(old(slots)[idx].desc, old(slots)[idx].msg, Idle)]
    {
      slots := slots[idx := slots[idx].(status := Idle)];
      freeCh := freeCh + [idx];
    }

    method Update(idx: nat, msg: string)
      requires Valid() && idx < |slots|
      modifies this
      ensures Valid() && View() == Reported(old(View()), idx, msg)
      ensures freeCh == old(freeCh)
      ensures slots == old(slots)[idx := Slot(old(slots)[idx].desc, msg, old(slots)[idx].status)]
    {
      slots := slots[idx := slots[idx].(msg := msg)];
    }

    method Done(idx: nat, msg: string)
      requires Valid() && idx < |slots|
      modifies this
      ensures Valid() && View() == Finished(old(View()), idx, msg, Status.Done)
      ensures freeCh == old(freeCh) && slots == old(slots)[idx := Slot(old(slots)[idx].desc, msg, Status.Done)]
    {
      slots := slots[idx := slots[idx].(msg := msg)];
      slots := slots[idx := slots[idx].(status := Status.Done)];
    }

    method Fail(idx: nat, msg: string)
      requires Valid() && idx < |slots|
      modifies this
      ensures Valid() && View() == Finished(old(View()), idx, msg, Failed)
      ensures freeCh == old(freeCh) && slots == old(slots)[idx := Slot(old(slots)[idx].desc, msg, Failed)]
    {
      slots := slots[idx := slots[idx].(msg := msg)];
      slots := slots[idx := slots[idx].(status := Failed)];
    }
  }

  // ----- any number of workers at once ------------------------------------

  /** Where a worker stands between the channel and the lock. */
  datatype Worker = Away | Taken(idx: nat) | Holding(idx: nat, desc: string) | Returning(idx: nat)

  datatype State = State(pool: Pool, workers: seq<Worker>)

  datatype Action =
    | Receive(w: nat)
    | Start(w: nat, desc: string)
    | Report(w: nat, msg: string)
    | Finish(w: nat, msg: string, failed: bool)
    | MarkIdle(w: nat)
    | Send(w: nat)

  function Move(s: State, pool: Pool, w: nat, worker: Worker): State
    requires w < |s.workers|
  {
    State(pool, s.workers[w := worker])
  }

  /** Workers touch only the slot they hold; a step that is not enabled changes nothing. */
  function Next(s: State, a: Action): State {
    if a.w >= |s.workers| then s
    else
      var worker := s.workers[a.w];
      if worker.Away? then
        if a.Receive? && s.pool.free != [] then Move(s, Received(s.pool), a.w, Taken(s.pool.free[0])) else s
      else if worker.idx >= |s.pool.slots| then s
      else
        match a
        case Receive(w) => s
        case Start(w, desc) =>
          if worker.Taken? then Move(s, Started(s.pool, worker.idx, desc), w, Holding(worker.idx, desc)) else s
        case Report(w, msg) => if worker.Holding? then Move(s, Reported(s.pool, worker.idx, msg), w, worker) else s
        case Finish(w, msg, failed) =>
          if worker.Holding? then
            Move(s, Finished(s.pool, worker.idx, msg, if failed then Failed else Done), w, worker)
          else s
        case MarkIdle(w) =>
          if worker.Holding? then Move(s, Idled(s.pool, worker.idx), w, Returning(worker.idx)) else s
        case Send(w) =>
          if worker.Returning? && CanSend(s.pool) then Move(s, Sent(s.pool, worker.idx), w, Away) else s
  }

  function Run(s: State, actions: seq<Action>): State
    decreases |actions|
  {
    if actions == [] then s else Run(Next(s, actions[0]), actions[1..])
  }

  function Init(numSlots: int, workers: nat): State {
    State(NewPool(NumSlots(numSlots)), seq(workers, i => Away))
  }

  // ----- the invariant ----------------------------------------------------

  function Owned(workers: seq<Worker>): nat {
    if workers == [] then 0 else (if workers[0].Away? then 0 else 1) + Owned(workers[1..])
  }

  ghost predicate Holds(s: State, w: nat, idx: nat) {
    w < |s.workers| && !s.workers[w].Away? && s.workers[w].idx == idx
  }

  ghost predicate ExactlyOnce(s: State) {
    && (forall i, j | 0 <= i < j < |s.pool.free| :: s.pool.free[i] != s.pool.free[j])
    && (forall i <- s.pool.free :: i < |s.pool.slots|)
    && (forall w: nat, idx: nat | Holds(s, w, idx) :: idx < |s.pool.slots| && idx !in s.pool.free)
    && (forall w: nat, v: nat, idx: nat | Holds(s, w, idx) && Holds(s, v, idx) :: w == v)
    && (forall idx: nat | idx < |s.pool.slots| && idx !in s.pool.free :: exists w: nat :: Holds(s, w, idx))
  }

  predicate LineOk(p: Pool, worker: Worker) {
    match worker
    case Away => true
    case Taken(idx) => idx < |p.slots| && p.slots[idx].status.Idle?
    case Holding(idx, desc) => idx < |p.slots| && p.slots[idx].desc == desc && !p.slots[idx].status.Idle?
    case Returning(idx) => idx < |p.slots| && p.slots[idx].status.Idle?
  }

  ghost predicate LinesOk(s: State) {
    && (forall idx <- s.pool.free :: idx < |s.pool.slots| && s.pool.slots[idx].status.Idle?)
    && (forall w | 0 <= w < |s.workers| :: LineOk(s.pool, s.workers[w]))
  }

  ghost predicate Inv(s: State) {
    ExactlyOnce(s) && LinesOk(s) && |s.pool.free| + Owned(s.workers) == |s.pool.slots|
  }

  lemma {:induction false} OwnedUpdate(workers: seq<Worker>, w: nat, worker: Worker)
    requires w < |workers|
    ensures Owned(workers[w := worker]) + (if workers[w].Away? then 0 else 1)
         == Owned(workers) + (if worker.Away? then 0 else 1)
    decreases |workers|
  {
    if w == 0 {
      assert workers[w := worker][1..] == workers[1..];
    } else {
      assert workers[w := worker][1..] == workers[1..][w - 1 := worker];
      OwnedUpdate(workers[1..], w - 1, worker);
    }
  }

  lemma {:induction false} NobodyOwns(workers: nat)
    ensures Owned(seq(workers, i => Away)) == 0
    decreases workers
  {
    if workers > 0 {
      assert seq<Worker>(workers, i => Away)[1..] == seq(workers - 1, i => Away);
      NobodyOwns(workers - 1);
    }
  }

  lemma InvInit(numSlots: int, workers: nat)
    ensures Inv(Init(numSlots, workers))
  {
    var s := Init(numSlots, workers);
    NobodyOwns(workers);
    forall idx: nat | idx < |s.pool.slots| ensures idx in s.pool.free { assert s.pool.free[idx] == idx; }
  }

  lemma ReceiveKeeps(s: State, w: nat)
    requires Inv(s) && w < |s.workers| && s.workers[w].Away? && s.pool.free != []
    ensures Inv(Move(s, Received(s.pool), w, Taken(s.pool.free[0])))
  {
    var idx := s.pool.free[0];
    var t := Move(s, Received(s.pool), w, Taken(idx));
    assert s.pool.free == [idx] + t.pool.free && idx in s.pool.free;
    assert idx !in t.pool.free && forall i <- t.pool.free :: i in s.pool.free;
    OwnedUpdate(s.workers, w, Taken(idx));
    forall i: nat | i < |t.pool.slots| && i !in t.pool.free ensures exists v: nat :: Holds(t, v, i) {
      if i == idx {
        assert Holds(t, w, i);
      } else {
        assert i !in s.pool.free;
        var v: nat :| Holds(s, v, i);
        assert Holds(t, v, i);
      }
    }
    assert forall v: nat, i: nat | Holds(t, v, i) :: (v == w && i == idx) || Holds(s, v, i);
  }

  lemma SendKeeps(s: State, w: nat)
    requires Inv(s) && w < |s.workers| && s.workers[w].Returning?
    ensures Inv(Move(s, Sent(s.pool, s.workers[w].idx), w, Away))
  {
    var idx := s.workers[w].idx;
    var t := Move(s, Sent(s.pool, idx), w, Away);
    OwnedUpdate(s.workers, w, Away);
    assert Holds(s, w, idx);
    forall i: nat | i < |t.pool.slots| && i !in t.pool.free ensures exists v: nat :: Holds(t, v, i) {
      assert t.pool.free[|s.pool.free|] == idx;
      assert i !in s.pool.free;
      var v: nat :| Holds(s, v, i);
      assert Holds(t, v, i);
    }
    assert forall v: nat, i: nat | Holds(t, v, i) :: v != w && Holds(s, v, i);
  }

  /** A step on the worker's own slot leaves the others' lines alone. */
  lemma OwnSlotKeeps(s: State, w: nat, worker: Worker, slot: Slot)
    requires Inv(s) && w < |s.workers| && !s.workers[w].Away? && !worker.Away? && worker.idx == s.workers[w].idx
    requires worker.idx < |s.pool.slots| && LineOk(s.pool.(slots := s.pool.slots[worker.idx := slot]), worker)
    ensures Inv(Move(s, s.pool.(slots := s.pool.slots[worker.idx := slot]), w, worker))
  {
    var t := Move(s, s.pool.(slots := s.pool.slots[worker.idx := slot]), w, worker);
    OwnedUpdate(s.workers, w, worker);
    assert forall v: nat, i: nat :: Holds(t, v, i) <==> Holds(s, v, i);
    assert Holds(s, w, worker.idx);
    forall v | 0 <= v < |t.workers| ensures LineOk(t.pool, t.workers[v]) {
      if v != w && !s.workers[v].Away? { assert Holds(s, v, s.workers[v].idx); }
    }
  }

  lemma InvStep(s: State, a: Action)
    requires Inv(s)
    ensures Inv(Next(s, a))
  {
    if a.w < |s.workers| {
      var w, worker := a.w, s.workers[a.w];
      if worker.Away? {
        if a.Receive? && s.pool.free != [] { ReceiveKeeps(s, w); }
      } else {
        assert Holds(s, w, worker.idx);
        var slot := s.pool.slots[worker.idx];
        if a.Start? && worker.Taken? {
          OwnSlotKeeps(s, w, Holding(worker.idx, a.desc), Slot(a.desc, "Starting...", Running));
        } else if a.Report? && worker.Holding? {
          OwnSlotKeeps(s, w, worker, slot.(msg := a.msg));
        } else if a.Finish? && worker.Holding? {
          OwnSlotKeeps(s, w, worker, slot.(msg := a.msg, status := if a.failed then Failed else Done));
        } else if a.MarkIdle? && worker.Holding? {
          OwnSlotKeeps(s, w, Returning(worker.idx), slot.(status := Idle));
        } else if a.Send? && worker.Returning? {
          SendKeeps(s, w);
        }
      }
    }
  }

  lemma {:induction false} InvRun(s: State, actions: seq<Action>)
    requires Inv(s)
    ensures Inv(Run(s, actions)) && |Run(s, actions).pool.slots| == |s.pool.slots|
    decreases |actions|
  {
    if actions != [] {
      InvStep(s, actions[0]);
      InvRun(Next(s, actions[0]), actions[1..]);
    }
  }

  // ----- what every interleaving keeps ------------------------------------

  lemma {:induction false} OwnerCounts(workers: seq<Worker>, w: nat)
    requires w < |workers| && !workers[w].Away?
    ensures Owned(workers) >= 1
    decreases |workers|
  {
    if w > 0 { OwnerCounts(workers[1..], w - 1); }
  }

  /** In every run each slot is free exactly once or owned by exactly one worker, free and
      owned slots add up to all of them, and free slots show as idle. */
  lemma SlotsAreNeverLostOrShared(numSlots: int, workers: nat, actions: seq<Action>)
    ensures var s := Run(Init(numSlots, workers), actions);
            && ExactlyOnce(s) && LinesOk(s) && |s.pool.slots| == NumSlots(numSlots)
            && |s.pool.free| + Owned(s.workers) == NumSlots(numSlots)
  {
    InvInit(numSlots, workers);
    InvRun(Init(numSlots, workers), actions);
  }

  /** Returning a slot never blocks, and Acquire blocks only while every slot is owned. */
  lemma ReleaseNeverBlocks(numSlots: int, workers: nat, actions: seq<Action>, w: nat)
    requires w < workers
    ensures var s := Run(Init(numSlots, workers), actions);
            && |s.workers| == workers
            && (!s.workers[w].Away? ==> CanSend(s.pool))
            && (s.pool.free == [] <==> Owned(s.workers) == NumSlots(numSlots))
  {
    SlotsAreNeverLostOrShared(numSlots, workers, actions);
    WorkersStay(Init(numSlots, workers), actions);
    var s := Run(Init(numSlots, workers), actions);
    if !s.workers[w].Away? { OwnerCounts(s.workers, w); }
  }

  lemma {:induction false} WorkersStay(s: State, actions: seq<Action>)
    ensures |Run(s, actions).workers| == |s.workers|
    decreases |actions|
  {
    if actions != [] { WorkersStay(Next(s, actions[0]), actions[1..]); }
  }
}
