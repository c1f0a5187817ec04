/** What subscribers of the configuration loader see, and when it reloads:
    the rules of config/viper.go over values. */
module ConfigEvents {
  import opened Prelude

  type Config = int

  datatype Failure = LoadFailed(id: int) | Invalid | WatchUnavailable

  datatype Event = Changed(was: Option<Config>, now: Config) | Failed(failure: Failure)

  // ----- channels ---------------------------------------------------------

  const BUFFER := 10

  /** A subscriber's channel: what is pending and whether it is closed; and, for the proofs,
      what was taken from it, what was offered and how many offers were dropped. */
  datatype Chan = Chan(pending: seq<Event>, closed: bool, taken: seq<Event>, offered: seq<Event>, drops: nat)

  const NEW_CHAN := Chan([], false, [], [], 0)

  /** A send that gives up when the buffer is full. */
  function Offer(c: Chan, e: Event): Chan {
    if |c.pending| < BUFFER then c.(pending := c.pending + [e], offered := c.offered + [e])
    else c.(offered := c.offered + [e], drops := c.drops + 1)
  }

  function Take(c: Chan): Chan
    requires c.pending != []
  {
    c.(pending := c.pending[1..], taken := c.taken + [c.pending[0]])
  }

  /** All channels ever handed out and the listed ones. A send on a closed channel, or
      closing one twice, panics. */
  datatype Hub = Hub(listed: seq<nat>, chans: seq<Chan>, panicked: bool)

  const EMPTY_HUB := Hub([], [], false)

  function Put(h: Hub, id: nat, c: Chan): Hub
    requires id < |h.chans|
  {
    h.(chans := h.chans[id := c])
  }

  function SendTo(h: Hub, id: nat, e: Event): (r: Hub)
    ensures |r.chans| == |h.chans| && r.listed == h.listed
  {
    if id >= |h.chans| || h.chans[id].closed then h.(panicked := true) else Put(h, id, Offer(h.chans[id], e))
  }

  function CloseOne(h: Hub, id: nat): (r: Hub)
    ensures |r.chans| == |h.chans| && r.listed == h.listed
  {
    if id >= |h.chans| || h.chans[id].closed then h.(panicked := true)
    else Put(h, id, h.chans[id].(closed := true))
  }

  function SendAll(h: Hub, ids: seq<nat>, e: Event): (r: Hub)
    ensures |r.chans| == |h.chans| && r.listed == h.listed
  {
    if ids == [] then h else SendTo(SendAll(h, ids[..|ids| - 1], e), ids[|ids| - 1], e)
  }

  function CloseAll(h: Hub, ids: seq<nat>): (r: Hub)
    ensures |r.chans| == |h.chans| && r.listed == h.listed
  {
    if ids == [] then h else CloseOne(CloseAll(h, ids[..|ids| - 1]), ids[|ids| - 1])
  }

  /** Without its first occurrence. */
  function Without(ids: seq<nat>, id: nat): seq<nat> {
    if ids == [] then [] else if ids[0] == id then ids[1..] else [ids[0]] + Without(ids[1..], id)
  }

  datatype Action = Subscribe | Unsubscribe(id: nat) | Notify(e: Event) | Receive(id: nat) | Stop

  function Next(h: Hub, a: Action): Hub {
    match a
    case Subscribe => h.(listed := h.listed + [|h.chans|], chans := h.chans + [NEW_CHAN])
    case Unsubscribe(id) => if id in h.listed then CloseOne(h, id).(listed := Without(h.listed, id)) else h
    case Notify(e) => SendAll(h, h.listed, e)
    case Receive(id) =>
      if id < |h.chans| && h.chans[id].pending != [] then Put(h, id, Take(h.chans[id])) else h
    case Stop => CloseAll(h, h.listed).(listed := [])
  }

  function Run(h: Hub, actions: seq<Action>): Hub
    decreases |actions|
  {
    if actions == [] then h else Run(Next(h, actions[0]), actions[1..])
  }

  // ----- what every interleaving keeps ------------------------------------

  /** a is b with some elements left out. */
  ghost predicate Subsequence<T>(a: seq<T>, b: seq<T>)
    decreases |b|
  {
    if a == [] then true
    else b != [] && var b' := b[..|b| - 1];
         (a[|a| - 1] == b[|b| - 1] && Subsequence(a[..|a| - 1], b')) || Subsequence(a, b')
  }

  lemma SubsequenceSnoc<T>(a: seq<T>, b: seq<T>, x: T)
    requires Subsequence(a, b)
    ensures Subsequence(a + [x], b + [x]) && Subsequence(a, b + [x])
  {
    assert (a + [x])[..|a|] == a && (b + [x])[..|b|] == b;
  }

  /** Same length: nothing was left out. */
  lemma {:induction false} SubsequenceOfSameLength<T>(a: seq<T>, b: seq<T>)
    requires Subsequence(a, b)
    ensures |a| <= |b| && (|a| == |b| ==> a == b)
    decreases |b|
  {
    if a != [] {
      var b' := b[..|b| - 1];
      if Subsequence(a, b') { SubsequenceOfSameLength(a, b'); }
      if a[|a| - 1] == b[|b| - 1] && Subsequence(a[..|a| - 1], b') {
        SubsequenceOfSameLength(a[..|a| - 1], b');
        if |a| == |b| { assert a == a[..|a| - 1] + [a[|a| - 1]] && b == b' + [b[|b| - 1]]; }
      }
    }
  }

  ghost predicate ChanOk(c: Chan) {
    && |c.pending| <= BUFFER
    && Subsequence(c.taken + c.pending, c.offered)
    && |c.taken| + |c.pending| + c.drops == |c.offered|
  }

  ghost predicate Distinct(ids: seq<nat>) { forall i, j | 0 <= i < j < |ids| :: ids[i] != ids[j] }

  ghost predicate Inv(h: Hub) {
    && !h.panicked
    && Distinct(h.listed)
    && (forall id <- h.listed :: id < |h.chans|)
    && (forall id: nat | id < |h.chans| :: id in h.listed <==> !h.chans[id].closed)
    && (forall id: nat | id < |h.chans| :: ChanOk(h.chans[id]))
  }

  lemma OfferKeeps(c: Chan, e: Event)
    requires ChanOk(c)
    ensures ChanOk(Offer(c, e))
  {
    SubsequenceSnoc(c.taken + c.pending, c.offered, e);
    assert c.taken + (c.pending + [e]) == c.taken + c.pending + [e];
  }

  lemma TakeKeeps(c: Chan)
    requires ChanOk(c) && c.pending != []
    ensures ChanOk(Take(c))
  {
    assert Take(c).taken + Take(c).pending == c.taken + c.pending;
  }

  lemma {:induction false} SendAllKeeps(h: Hub, ids: seq<nat>, e: Event)
    requires Inv(h) && forall id <- ids :: id in h.listed
    ensures Inv(SendAll(h, ids, e))
    decreases |ids|
  {
    if ids != [] {
      var before, last := SendAll(h, ids[..|ids| - 1], e), ids[|ids| - 1];
      SendAllKeeps(h, ids[..|ids| - 1], e);
      assert last in h.listed;
      OfferKeeps(before.chans[last], e);
    }
  }

  /** Exactly the named channels, all open before, are closed. */
  lemma {:induction false} CloseAllCloses(h: Hub, ids: seq<nat>)
    requires Distinct(ids) && forall id <- ids :: id < |h.chans| && !h.chans[id].closed
    ensures var r := CloseAll(h, ids);
            r.panicked == h.panicked && forall id: nat | id < |h.chans| ::
              r.chans[id] == if id in ids then h.chans[id].(closed := true) else h.chans[id]
    decreases |ids|
  {
    if ids != [] {
      var others, last := ids[..|ids| - 1], ids[|ids| - 1];
      assert ids == others + [last] && last !in others && last in ids;
      CloseAllCloses(h, others);
    }
  }

  lemma {:induction false} WithoutRemoves(ids: seq<nat>, id: nat)
    requires Distinct(ids)
    ensures Distinct(Without(ids, id)) && forall x :: x in Without(ids, id) <==> x in ids && x != id
    decreases |ids|
  {
    if ids != [] {
      assert ids == [ids[0]] + ids[1..];
      WithoutRemoves(ids[1..], id);
      if ids[0] == id { assert id !in ids[1..]; } else { assert ids[0] !in Without(ids[1..], id); }
    }
  }

  lemma InvNext(h: Hub, a: Action)
    requires Inv(h)
    ensures Inv(Next(h, a))
  {
    match a
    case Subscribe =>
      var r := Next(h, a);
      assert |h.chans| !in h.listed;
      forall id: nat | id < |r.chans| ensures id in r.listed <==> !r.chans[id].closed {
        if id == |h.chans| { assert r.listed[|h.listed|] == id; }
      }
    case Unsubscribe(id) => WithoutRemoves(h.listed, id);
    case Notify(e) => SendAllKeeps(h, h.listed, e);
    case Receive(id) => if id < |h.chans| && h.chans[id].pending != [] { TakeKeeps(h.chans[id]); }
    case Stop => CloseAllCloses(h, h.listed);
  }

  lemma {:induction false} InvRun(h: Hub, actions: seq<Action>)
    requires Inv(h)
    ensures Inv(Run(h, actions))
    decreases |actions|
  {
    if actions != [] {
      InvNext(h, actions[0]);
      InvRun(Next(h, actions[0]), actions[1..]);
    }
  }

  /** In every interleaving the listed channels are exactly the open ones, and no channel is
      closed twice or sent to after it is closed. */
  lemma ListedAreTheOpenChannels(actions: seq<Action>)
    ensures var h := Run(EMPTY_HUB, actions);
            !h.panicked && forall id: nat | id < |h.chans| :: id in h.listed <==> !h.chans[id].closed
  {
    InvRun(EMPTY_HUB, actions);
  }

  lemma {:induction false} SendAllReaches(h: Hub, ids: seq<nat>, e: Event)
    requires Distinct(ids) && forall id <- ids :: id < |h.chans| && !h.chans[id].closed
    ensures var r := SendAll(h, ids, e);
            r.panicked == h.panicked && forall id: nat | id < |h.chans| ::
              r.chans[id] == if id in ids then Offer(h.chans[id], e) else h.chans[id]
    decreases |ids|
  {
    if ids != [] {
      var others, last := ids[..|ids| - 1], ids[|ids| - 1];
      assert ids == others + [last] && last !in others && last in ids;
      SendAllReaches(h, others, e);
    }
  }

  // ----- what a run does to one channel -----------------------------------

  /** The notification a step makes while the channel is listed. */
  function HeardIn(h: Hub, a: Action, id: nat): seq<Event> {
    if a.Notify? && id in h.listed then [a.e] else []
  }

  function Heard(h: Hub, actions: seq<Action>, id: nat): seq<Event>
    decreases |actions|
  {
    if actions == [] then [] else HeardIn(h, actions[0], id) + Heard(Next(h, actions[0]), actions[1..], id)
  }

  /** The event a step hands to the subscriber. */
  function TookIn(h: Hub, a: Action, id: nat): seq<Event> {
    if a.Receive? && a.id == id && id < |h.chans| && h.chans[id].pending != [] then [h.chans[id].pending[0]] else []
  }

  function Took(h: Hub, actions: seq<Action>, id: nat): seq<Event>
    decreases |actions|
  {
    if actions == [] then [] else TookIn(h, actions[0], id) + Took(Next(h, actions[0]), actions[1..], id)
  }

  predicate Full(h: Hub, id: nat) { id < |h.chans| && |h.chans[id].pending| == BUFFER }

  /** The notification a step makes while the channel is listed, unless ten are pending. */
  function KeptIn(h: Hub, a: Action, id: nat): seq<Event> { if Full(h, id) then [] else HeardIn(h, a, id) }

  function Kept(h: Hub, actions: seq<Action>, id: nat): seq<Event>
    decreases |actions|
  {
    if actions == [] then [] else KeptIn(h, actions[0], id) + Kept(Next(h, actions[0]), actions[1..], id)
  }

  /** How many notifications found the listed channel full. */
  function Missed(h: Hub, actions: seq<Action>, id: nat): nat
    decreases |actions|
  {
    if actions == [] then 0
    else (if Full(h, id) then |HeardIn(h, actions[0], id)| else 0) + Missed(Next(h, actions[0]), actions[1..], id)
  }

  function ChanAt(h: Hub, id: nat): Chan { if id < |h.chans| then h.chans[id] else NEW_CHAN }

  predicate Records(before: Chan, after: Chan, heard: seq<Event>, took: seq<Event>, missed: nat) {
    && after.offered == before.offered + heard
    && after.taken == before.taken + took
    && after.drops == before.drops + missed
  }

  lemma StepRecords(h: Hub, a: Action, id: nat)
    requires Inv(h)
    ensures Records(ChanAt(h, id), ChanAt(Next(h, a), id), HeardIn(h, a, id), TookIn(h, a, id),
                    if Full(h, id) then |HeardIn(h, a, id)| else 0)
  {
    match a
    case Subscribe =>
    case Unsubscribe(_) =>
    case Notify(e) => SendAllReaches(h, h.listed, e);
    case Receive(_) =>
    case Stop => CloseAllCloses(h, h.listed);
  }

  lemma ThenRecords(x: Chan, y: Chan, z: Chan, heard: seq<Event>, took: seq<Event>, missed: nat,
                    heard': seq<Event>, took': seq<Event>, missed': nat)
    requires Records(x, y, heard, took, missed) && Records(y, z, heard', took', missed')
    ensures Records(x, z, heard + heard', took + took', missed + missed')
  {
  }

  /** The histories a channel keeps are those of the run. */
  lemma {:induction false} RunRecords(h: Hub, actions: seq<Action>, id: nat)
    requires Inv(h)
    ensures Records(ChanAt(h, id), ChanAt(Run(h, actions), id),
                    Heard(h, actions, id), Took(h, actions, id), Missed(h, actions, id))
    decreases |actions|
  {
    if actions != [] {
      var a, t, rest := actions[0], Next(h, actions[0]), actions[1..];
      StepRecords(h, a, id);
      InvNext(h, a);
      RunRecords(t, rest, id);
      ThenRecords(ChanAt(h, id), ChanAt(t, id), ChanAt(Run(t, rest), id),
                  HeardIn(h, a, id), TookIn(h, a, id), if Full(h, id) then |HeardIn(h, a, id)| else 0,
                  Heard(t, rest, id), Took(t, rest, id), Missed(t, rest, id));
    }
  }

  /** What passed into a channel is what was taken from it and what still waits. */
  predicate Through(before: Chan, after: Chan, kept: seq<Event>) {
    after.taken + after.pending == before.taken + before.pending + kept
  }

  lemma StepThrough(h: Hub, a: Action, id: nat)
    requires Inv(h)
    ensures Through(ChanAt(h, id), ChanAt(Next(h, a), id), KeptIn(h, a, id))
  {
    match a
    case Subscribe =>
    case Unsubscribe(_) =>
    case Notify(e) =>
      SendAllReaches(h, h.listed, e);
      if id < |h.chans| { OfferPasses(h.chans[id], e); }
    case Receive(r) => if r < |h.chans| && h.chans[r].pending != [] { TakePasses(h.chans[r]); }
    case Stop => CloseAllCloses(h, h.listed);
  }

  lemma OfferPasses(c: Chan, e: Event)
    requires |c.pending| <= BUFFER
    ensures Through(c, Offer(c, e), if |c.pending| == BUFFER then [] else [e])
  {
    assert c.taken + (c.pending + [e]) == c.taken + c.pending + [e];
  }

  lemma TakePasses(c: Chan)
    requires c.pending != []
    ensures Through(c, Take(c), [])
  {
    assert Take(c).taken + Take(c).pending == c.taken + c.pending;
  }

  lemma ThenThrough(x: Chan, y: Chan, z: Chan, kept: seq<Event>, kept': seq<Event>)
    requires Through(x, y, kept) && Through(y, z, kept')
    ensures Through(x, z, kept + kept')
  {
  }

  lemma {:induction false} RunThrough(h: Hub, actions: seq<Action>, id: nat)
    requires Inv(h)
    ensures Through(ChanAt(h, id), ChanAt(Run(h, actions), id), Kept(h, actions, id))
    decreases |actions|
  {
    if actions != [] {
      var a, t, rest := actions[0], Next(h, actions[0]), actions[1..];
      StepThrough(h, a, id);
      InvNext(h, a);
      RunThrough(t, rest, id);
      ThenThrough(ChanAt(h, id), ChanAt(t, id), ChanAt(Run(t, rest), id), KeptIn(h, a, id), Kept(t, rest, id));
    }
  }

  /** What a subscriber took in a run, and what still waits for it, are the notifications made
      while it was listed, in order, without exactly those that found ten pending; all of them if
      none did. */
  lemma SubscribersSeeEventsInOrder(actions: seq<Action>, id: nat)
    requires id < |Run(EMPTY_HUB, actions).chans|
    ensures var seen := Took(EMPTY_HUB, actions, id) + Run(EMPTY_HUB, actions).chans[id].pending;
            && seen == Kept(EMPTY_HUB, actions, id)
            && Subsequence(seen, Heard(EMPTY_HUB, actions, id))
            && |seen| + Missed(EMPTY_HUB, actions, id) == |Heard(EMPTY_HUB, actions, id)|
            && (Missed(EMPTY_HUB, actions, id) == 0 ==> seen == Heard(EMPTY_HUB, actions, id))
  {
    InvRun(EMPTY_HUB, actions);
    RunRecords(EMPTY_HUB, actions, id);
    RunThrough(EMPTY_HUB, actions, id);
    RecordsInOrder(Run(EMPTY_HUB, actions).chans[id],
                   Heard(EMPTY_HUB, actions, id), Took(EMPTY_HUB, actions, id), Missed(EMPTY_HUB, actions, id));
    KeptInOrder(Run(EMPTY_HUB, actions).chans[id], Took(EMPTY_HUB, actions, id), Kept(EMPTY_HUB, actions, id));
  }

  lemma KeptInOrder(c: Chan, took: seq<Event>, kept: seq<Event>)
    requires Through(NEW_CHAN, c, kept) && c.taken == [] + took
    ensures took + c.pending == kept
  {
    assert [] + took == took && [] + [] + kept == kept;
  }

  lemma RecordsInOrder(c: Chan, heard: seq<Event>, took: seq<Event>, missed: nat)
    requires ChanOk(c) && Records(NEW_CHAN, c, heard, took, missed)
    ensures Subsequence(took + c.pending, heard) && |took + c.pending| + missed == |heard|
    ensures missed == 0 ==> took + c.pending == heard
  {
    assert c.offered == heard && c.taken == took;
    SubsequenceOfSameLength(c.taken + c.pending, c.offered);
  }

  /** A notification reaches every open channel once and no closed one; it is dropped exactly
      where ten events are already pending. */
  lemma NotificationsReachOpenChannels(actions: seq<Action>, e: Event, id: nat)
    requires id < |Run(EMPTY_HUB, actions).chans|
    ensures var h := Run(EMPTY_HUB, actions);
            var before, after := h.chans[id], Next(h, Notify(e)).chans[id];
            if before.closed then after == before
            else after.drops == before.drops + (if |before.pending| == 10 then 1 else 0) &&
                 after.pending == before.pending + (if |before.pending| == 10 then [] else [e])
  {
    InvRun(EMPTY_HUB, actions);
    var h := Run(EMPTY_HUB, actions);
    SendAllReaches(h, h.listed, e);
  }

  // ----- the current configuration ----------------------------------------

  type Validator = Option<Config -> bool>

  predicate Accepts(validator: Validator, c: Config) { validator.Some? ==> validator.value(c) }

  /** What loading gave. */
  datatype Loaded = Parsed(config: Config) | Unreadable(id: int)

  function Reloaded(current: Option<Config>, validator: Validator, loaded: Loaded): Option<Config> {
    if loaded.Parsed? && Accepts(validator, loaded.config) then Some(loaded.config) else current
  }

  function EventOf(current: Option<Config>, validator: Validator, loaded: Loaded): Event {
    if loaded.Unreadable? then Failed(LoadFailed(loaded.id))
    else if Accepts(validator, loaded.config) then Changed(current, loaded.config) else Failed(Invalid)
  }

  function ReloadAll(current: Option<Config>, validator: Validator, loads: seq<Loaded>): (Option<Config>, seq<Event>)
    decreases |loads|
  {
    if loads == [] then (current, [])
    else
      var (last, events) := ReloadAll(Reloaded(current, validator, loads[0]), validator, loads[1..]);
      (last, [EventOf(current, validator, loads[0])] + events)
  }

  /** What a subscriber that missed nothing takes the configuration to be. */
  function Replay(current: Option<Config>, events: seq<Event>): Option<Option<Config>>
    decreases |events|
  {
    if events == [] then Some(current)
    else match events[0]
         case Failed(_) => Replay(current, events[1..])
         case Changed(was, now) => if was == current then Replay(Some(now), events[1..]) else None
  }

  predicate CurrentOk(current: Option<Config>, validator: Validator) {
    current.Some? && Accepts(validator, current.value)
  }

  /** The event of a reload says what became of that load: the very failure of loading it, that
      the validator refused it, or that it is the configuration now. */
  predicate Tells(e: Event, loaded: Loaded, validator: Validator) {
    match loaded
    case Unreadable(id) => e == Failed(LoadFailed(id))
    case Parsed(config) =>
      if validator.Some? && !validator.value(config) then e == Failed(Invalid)
      else e.Changed? && e.now == config
  }

  /** Over any sequence of reloads a valid configuration stays valid, every event tells what
      became of its own load, and the events alone, each starting where the previous one ended,
      replay to the current configuration. */
  lemma {:induction false} ReloadsStayValidAndReplay(current: Option<Config>, validator: Validator, loads: seq<Loaded>)
    ensures var (last, events) := ReloadAll(current, validator, loads);
            && (CurrentOk(current, validator) ==> CurrentOk(last, validator))
            && |events| == |loads| && Replay(current, events) == Some(last)
            && forall i | 0 <= i < |loads| :: Tells(events[i], loads[i], validator)
    decreases |loads|
  {
    if loads != [] {
      ReloadsStayValidAndReplay(Reloaded(current, validator, loads[0]), validator, loads[1..]);
      var (last, events) := ReloadAll(Reloaded(current, validator, loads[0]), validator, loads[1..]);
      var all := [EventOf(current, validator, loads[0])] + events;
      assert all[1..] == events;
      forall i | 0 <= i < |loads| ensures Tells(all[i], loads[i], validator) {
        if i > 0 { assert all[i] == events[i - 1] && loads[i] == loads[1..][i - 1]; }
      }
    }
  }

  // ----- debouncing -------------------------------------------------------

  datatype Timer = Timer(id: nat, deadline: Time)

  /** The runtime's armed timers, the loader's handle on one of them, and the instants
      timers went off at. */
  datatype Debouncer = Debouncer(timers: seq<Timer>, handle: Option<nat>, made: nat, stopped: bool, fired: seq<Time>)

  const NEW_DEBOUNCER := Debouncer([], None, 0, false, [])

  function Pending(timers: seq<Timer>, now: Time): seq<Timer> {
    if timers == [] then []
    else (if timers[0].deadline <= now then [] else [timers[0]]) + Pending(timers[1..], now)
  }

  function Due(timers: seq<Timer>, now: Time): seq<Time> {
    if timers == [] then []
    else (if timers[0].deadline <= now then [timers[0].deadline] else []) + Due(timers[1..], now)
  }

  function Cancelled(timers: seq<Timer>, id: nat): seq<Timer> {
    if timers == [] then []
    else (if timers[0].id == id then [] else [timers[0]]) + Cancelled(timers[1..], id)
  }

  /** Time passes; deadlines that have come go off. */
  function Elapsed(d: Debouncer, now: Time): Debouncer {
    d.(timers := Pending(d.timers, now), fired := d.fired + Due(d.timers, now))
  }

  function Disarmed(d: Debouncer): Debouncer {
    if d.handle.Some? then d.(timers := Cancelled(d.timers, d.handle.value)) else d
  }

  /** A file event replaces the timer, unless the loader is stopped. */
  function Armed(d: Debouncer, now: Time, debounce: Time): Debouncer {
    if d.stopped then d
    else
      var quiet := Disarmed(d);
      quiet.(timers := quiet.timers + [Timer(d.made, now + debounce)], handle := Some(d.made), made := d.made + 1)
  }

  function Halted(d: Debouncer): Debouncer { Disarmed(d).(handle := None, stopped := true) }

  datatype Moment = Elapses(now: Time) | FileChanges(now: Time) | Stops

  function Passes(d: Debouncer, m: Moment, debounce: Time): Debouncer {
    match m
    case Elapses(now) => Elapsed(d, now)
    case FileChanges(now) => Armed(d, now, debounce)
    case Stops => Halted(d)
  }

  function Passed(d: Debouncer, moments: seq<Moment>, debounce: Time): Debouncer
    decreases |moments|
  {
    if moments == [] then d else Passed(Passes(d, moments[0], debounce), moments[1..], debounce)
  }

  /** Whatever is armed is what the loader would stop. */
  predicate InHand(d: Debouncer) {
    && |d.timers| <= 1
    && (d.timers != [] ==> d.handle == Some(d.timers[0].id) && !d.stopped)
  }

  lemma OneTimer(t: Timer, now: Time, id: nat)
    ensures Pending([t], now) == if t.deadline <= now then [] else [t]
    ensures Due([t], now) == if t.deadline <= now then [t.deadline] else []
    ensures Cancelled([t], id) == if t.id == id then [] else [t]
  {
    assert [t][1..] == [];
  }

  lemma InHandStep(d: Debouncer, m: Moment, debounce: Time)
    requires InHand(d)
    ensures InHand(Passes(d, m, debounce))
    ensures d.stopped ==> Passes(d, m, debounce).stopped && Passes(d, m, debounce).fired == d.fired
  {
    if d.timers != [] {
      assert d.timers == [d.timers[0]];
      OneTimer(d.timers[0], if m.Elapses? then m.now else 0, d.timers[0].id);
    }
  }

  /** In every run at most one timer is armed, none after a stop, and after a stop nothing
      goes off any more. */
  lemma {:induction false} AtMostOneTimer(d: Debouncer, moments: seq<Moment>, debounce: Time)
    requires InHand(d)
    ensures var e := Passed(d, moments, debounce);
            && |e.timers| <= 1 && (e.stopped ==> e.timers == [])
            && (d.stopped ==> e.stopped && e.fired == d.fired)
    decreases |moments|
  {
    if moments != [] {
      InHandStep(d, moments[0], debounce);
      AtMostOneTimer(Passes(d, moments[0], debounce), moments[1..], debounce);
    }
  }

  /** Nothing goes off once the loader has been stopped, whatever was armed and whatever files
      change later. */
  lemma NothingAfterAStop(d: Debouncer, moments: seq<Moment>, debounce: Time)
    requires InHand(d)
    ensures Passed(Passes(d, Stops, debounce), moments, debounce).fired == d.fired
    ensures Passed(Passes(d, Stops, debounce), moments, debounce).timers == []
  {
    InHandStep(d, Stops, debounce);
    AtMostOneTimer(Passes(d, Stops, debounce), moments, debounce);
  }

  function FileEvents(times: seq<Time>, debounce: Time): Debouncer {
    if times == [] then NEW_DEBOUNCER
    else
      var n := |times| - 1;
      Armed(Elapsed(FileEvents(times[..n], debounce), times[n]), times[n], debounce)
  }

  /** One debounce after every event that a whole debounce of quiet follows. */
  function QuietEnds(times: seq<Time>, debounce: Time): seq<Time> {
    if |times| < 2 then []
    else
      var n := |times| - 1;
      QuietEnds(times[..n], debounce) +
      if times[n] - times[n - 1] >= debounce then [times[n - 1] + debounce] else []
  }

  /** One timer armed, in hand, with this deadline, after these reloads. */
  ghost predicate Waiting(d: Debouncer, deadline: Time, fired: seq<Time>) {
    !d.stopped && d.fired == fired && exists id :: d.handle == Some(id) && d.timers == [Timer(id, deadline)]
  }

  lemma NextEvent(d: Debouncer, deadline: Time, fired: seq<Time>, now: Time, debounce: Time)
    requires Waiting(d, deadline, fired)
    ensures Elapsed(d, now).fired == fired + (if deadline <= now then [deadline] else [])
    ensures deadline <= now ==> Elapsed(d, now).timers == []
    ensures Waiting(Armed(Elapsed(d, now), now, debounce), now + debounce,
                    fired + if deadline <= now then [deadline] else [])
  {
    var t := d.timers[0];
    OneTimer(t, now, t.id);
    var e := Elapsed(d, now);
    assert Disarmed(e).timers == [];
    assert Armed(e, now, debounce).timers == [Timer(d.made, now + debounce)];
  }

  /** For any file events at all, reloads happen exactly at the ends of the quiet spells. */
  lemma {:induction false} ReloadsAtQuietEnds(times: seq<Time>, debounce: Time)
    requires times != []
    ensures Waiting(FileEvents(times, debounce), times[|times| - 1] + debounce, QuietEnds(times, debounce))
    decreases |times|
  {
    var n := |times| - 1;
    if n > 0 {
      ReloadsAtQuietEnds(times[..n], debounce);
      var before := FileEvents(times[..n], debounce);
      NextEvent(before, times[n - 1] + debounce, QuietEnds(times[..n], debounce), times[n], debounce);
    } else {
      FirstEvent(times[0], debounce);
      assert times == [times[0]];
    }
  }

  lemma FirstEvent(now: Time, debounce: Time)
    ensures Waiting(FileEvents([now], debounce), now + debounce, [])
  {
    var e := Elapsed(NEW_DEBOUNCER, now);
    assert e == NEW_DEBOUNCER;
    assert [now][..0] == [] && FileEvents([now], debounce) == Armed(e, now, debounce);
    assert Armed(e, now, debounce).timers == [Timer(0, now + debounce)];
  }

  lemma {:induction false} NoQuietEnds(times: seq<Time>, debounce: Time)
    requires forall i | 0 < i < |times| :: times[i] - times[i - 1] < debounce
    ensures QuietEnds(times, debounce) == []
    decreases |times|
  {
    if |times| >= 2 { NoQuietEnds(times[..|times| - 1], debounce); }
  }

  /** A burst, all of whose gaps are below the debounce, causes exactly one reload, one
      debounce after its last event. */
  lemma BurstReloadsOnce(times: seq<Time>, debounce: Time, later: Time)
    requires times != [] && forall i | 0 < i < |times| :: times[i] - times[i - 1] < debounce
    requires later >= times[|times| - 1] + debounce
    ensures var d := Elapsed(FileEvents(times, debounce), later);
            d.timers == [] && d.fired == [times[|times| - 1] + debounce]
  {
    ReloadsAtQuietEnds(times, debounce);
    NoQuietEnds(times, debounce);
    NextEvent(FileEvents(times, debounce), times[|times| - 1] + debounce, [], later, debounce);
  }
}
