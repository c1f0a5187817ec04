/** The configuration loader as an object: config/viper.go. Each method is one of the
    critical sections of the source and makes the matching step of ConfigEvents. */
module ConfigLoading {
  import opened Prelude
  import opened ConfigEvents

  class Channel {
    ghost const id: nat
    var pending: seq<Event>
    var closed: bool
    ghost var taken: seq<Event>
    ghost var offered: seq<Event>
    ghost var drops: nat

    ghost function View(): Chan
      reads this
    {
      Chan(pending, closed, taken, offered, drops)
    }

    constructor (ghost id: nat)
      ensures this.id == id && View() == NEW_CHAN
    {
      this.id := id;
      pending, closed := [], false;
      taken, offered, drops := [], [], 0;
    }

    /** A send on a closed channel panics. */
    method TrySend(e: Event)
      requires !closed
      modifies this
      ensures View() == Offer(old(View()), e)
      ensures pending == if |old(pending)| < 10 then old(pending) + [e] else old(pending)
    {
      if |pending| < BUFFER { pending := pending + [e]; } else { drops := drops + 1; }
      offered := offered + [e];
    }

    /** So does closing one twice. */
    method Close()
      requires !closed
      modifies this
      ensures View() == old(View()).(closed := true)
      ensures closed && pending == old(pending)
    {
      closed := true;
    }

    method Receive() returns (e: Event)
      requires pending != []
      modifies this
      ensures [e] + pending == old(pending) && View() == Take(old(View()))
    {
      e, pending := pending[0], pending[1..];
      taken := taken + [e];
    }
  }

  ghost function Ids(channels: seq<Channel>): seq<nat> {
    seq(|channels|, i requires 0 <= i < |channels| => channels[i].id)
  }

  ghost function Views(channels: seq<Channel>): seq<Chan>
    reads channels
  {
    seq(|channels|, i requires 0 <= i < |channels| reads channels => channels[i].View())
  }

  ghost predicate Numbered(channels: seq<Channel>, ch: Channel) {
    ch.id < |channels| && channels[ch.id] == ch && forall i | 0 <= i < |channels| :: channels[i].id == i
  }

  /** One send, seen among all the channels. */
  method SendIn(ghost channels: seq<Channel>, ch: Channel, e: Event)
    requires Numbered(channels, ch) && !ch.closed
    modifies ch
    ensures Views(channels) == old(Views(channels))[ch.id := Offer(old(Views(channels))[ch.id], e)]
  {
    ch.TrySend(e);
  }

  method CloseIn(ghost channels: seq<Channel>, ch: Channel)
    requires Numbered(channels, ch) && !ch.closed
    modifies ch
    ensures Views(channels) == old(Views(channels))[ch.id := old(Views(channels))[ch.id].(closed := true)]
    ensures ch.closed && ch.pending == old(ch.pending)
  {
    ch.Close();
  }

  class Loader {
    const debounce: Time
    const watch: bool
    var current: Option<Config>
    var validator: Validator
    var subscribers: seq<Channel>
    ghost var issued: seq<Channel>
    var timers: seq<Timer>
    var debouncer: Option<nat>
    var made: nat
    var stopped: bool

    ghost function View(): Hub
      reads this`subscribers, this`issued, issued
    {
      Hub(Ids(subscribers), Views(issued), false)
    }

    ghost predicate Wired()
      reads this`subscribers, this`issued
    {
      && (forall i | 0 <= i < |issued| :: issued[i].id == i)
      && (forall c <- subscribers :: c.id < |issued| && issued[c.id] == c)
    }

    ghost predicate Valid()
      reads this`subscribers, this`issued, issued
    {
      Wired() && Inv(View())
    }

    constructor (debounce: Time, watch: bool)
      ensures Valid() && View() == EMPTY_HUB && current == None && validator == None
      ensures Debounced([]) == NEW_DEBOUNCER && this.debounce == debounce && this.watch == watch
    {
      this.debounce, this.watch := debounce, watch;
      current, validator := None, None;
      timers, debouncer, made, stopped := [], None, 0, false;
      subscribers, issued := [], [];
    }

    // ----- subscribers ----------------------------------------------------

    method Subscribe() returns (ch: Channel)
      requires Valid()
      modifies this`subscribers, this`issued
      ensures Valid() && fresh(ch) && issued == old(issued) + [ch]
      ensures subscribers == old(subscribers) + [ch] && ch.pending == [] && !ch.closed
      ensures View() == Next(old(View()), Action.Subscribe)
    {
      ghost var before := View();
      ch := new Channel(|issued|);
      subscribers := subscribers + [ch];
      issued := issued + [ch];
      assert View() == Next(before, Action.Subscribe);
      InvNext(before, Action.Subscribe);
    }

    /** Closes the channel if it is listed, and takes it off the list. */
    method Unsubscribe(ch: Channel)
      requires Valid()
      modifies this`subscribers, issued
      ensures Valid() && issued == old(issued)
      ensures View() == if ch in issued then Next(old(View()), Action.Unsubscribe(ch.id)) else old(View())
      ensures ch !in old(subscribers) ==> subscribers == old(subscribers)
      ensures ch in old(subscribers) ==>
        && ch.closed && ch.pending == old(ch.pending)
        && exists i: nat | i < |old(subscribers)| ::
             old(subscribers)[i] == ch && subscribers == old(subscribers)[..i] + old(subscribers)[i + 1..]
    {
      for i := 0 to |subscribers|
        invariant Valid() && View() == old(View()) && ch !in subscribers[..i]
        invariant subscribers == old(subscribers) && issued == old(issued)
      {
        if subscribers[i] == ch {
          CloseAndShift(i);
          return;
        }
      }
      assert ch in issued ==> ch.id !in View().listed;
    }

    /** Shifts the rest of the list over the channel it closes. */
    method CloseAndShift(i: nat)
      requires Valid() && i < |subscribers|
      modifies this`subscribers, issued
      ensures Valid() && issued == old(issued)
      ensures View() == Next(old(View()), Action.Unsubscribe(old(subscribers)[i].id))
      ensures subscribers == old(subscribers)[..i] + old(subscribers)[i + 1..]
      ensures old(subscribers)[i].closed && old(subscribers)[i].pending == old(subscribers[i].pending)
    {
      ghost var before := View();
      Unlisted(before, i);
      CloseIn(issued, subscribers[i]);
      subscribers := subscribers[..i] + subscribers[i + 1..];
      assert View().listed == before.listed[..i] + before.listed[i + 1..];
    }

    /** Tries every listed channel in turn. */
    method Notify(e: Event)
      requires Valid()
      modifies issued
      ensures Valid()
      ensures View() == Next(old(View()), Action.Notify(e))
    {
      ghost var before := View();
      for i := 0 to |subscribers|
        invariant Wired() && Inv(View()) && View() == SendAll(before, before.listed[..i], e)
      {
        var ch := subscribers[i];
        ghost var so := View();
        assert so.listed[i] == ch.id && so.listed[i] in so.listed;
        SendIn(issued, ch, e);
        assert before.listed[..i + 1][..i] == before.listed[..i];
        assert View() == SendAll(before, before.listed[..i + 1], e);
        SendAllKeeps(before, before.listed[..i + 1], e);
      }
      assert before.listed[..|subscribers|] == before.listed;
    }

    /** Disarms the timer for good, then closes every listed channel; each half has its own lock. */
    method Stop()
      requires Valid()
      modifies this`subscribers, this`timers, this`debouncer, this`stopped, issued
      ensures Valid() && subscribers == [] && stopped
      ensures forall c <- old(subscribers) :: c.closed
      ensures View() == Next(old(View()), Action.Stop)
      ensures forall fired :: Debounced(fired) == Halted(old(Debounced(fired)))
    {
      ghost var before, were := View(), subscribers;
      StopTimer();
      CloseSubscribers();
      forall i | 0 <= i < |were| ensures were[i].closed {
        assert were[i] in were && before.listed[i] == were[i].id;
        ListedAreClosed(before, before.listed[i]);
        assert were[i].View() == Views(issued)[were[i].id];
      }
    }

    method StopTimer()
      modifies this`timers, this`debouncer, this`stopped
      ensures forall fired :: Debounced(fired) == Halted(old(Debounced(fired)))
      ensures stopped
    {
      stopped := true;
      if debouncer.Some? {
        timers := Cancelled(timers, debouncer.value);
        debouncer := None;
      }
    }

    method CloseSubscribers()
      requires Valid()
      modifies this`subscribers, issued
      ensures Valid() && subscribers == []
      ensures View() == Next(old(View()), Action.Stop)
    {
      ghost var before := View();
      for i := 0 to |subscribers|
        modifies issued
        invariant View() == CloseAll(before, before.listed[..i])
      {
        OneMoreClosed(before, i);
        assert before.listed[i] == subscribers[i].id;
        CloseIn(issued, subscribers[i]);
      }
      assert before.listed[..|subscribers|] == before.listed;
      subscribers := [];
      InvNext(before, Action.Stop);
    }

    // ----- loading --------------------------------------------------------

    /** `hasFile` says whether a file was found to watch; the configuration is current even
        when watching fails. */
    method Load(loaded: Loaded, hasFile: bool) returns (failure: Option<Failure>)
      modifies this`current
      ensures current == if loaded.Parsed? then Some(loaded.config) else old(current)
      ensures failure == if loaded.Unreadable? then Some(LoadFailed(loaded.id))
                         else if watch && !hasFile then Some(WatchUnavailable) else None
    {
      if loaded.Unreadable? { return Some(LoadFailed(loaded.id)); }
      current := Some(loaded.config);
      if watch {
        if !hasFile { return Some(WatchUnavailable); }
      }
      failure := None;
    }

    /** Success leaves a configuration the validator accepts. Failure does not mean the old one
        is kept: what was loaded is current before it is validated. */
    method LoadWithValidation(check: Validator, loaded: Loaded, hasFile: bool) returns (failure: Option<Failure>)
      modifies this`current, this`validator
      ensures validator == check
      ensures current == if loaded.Parsed? then Some(loaded.config) else old(current)
      ensures failure == if loaded.Unreadable? then Some(LoadFailed(loaded.id))
                         else if watch && !hasFile then Some(WatchUnavailable)
                         else if Accepts(check, loaded.config) then None else Some(Invalid)
      ensures failure == None ==> CurrentOk(current, validator)
      ensures failure == Some(Invalid) ==> !CurrentOk(current, validator)
    {
      validator := check;
      failure := Load(loaded, hasFile);
      if failure.Some? { return; }
      if check.Some? {
        if !check.value(loaded.config) { return Some(Invalid); }
      }
    }

    /** Reads again; subscribers learn of the outcome, whatever it is, and a failure changes
        nothing else. */
    method Reload(loaded: Loaded) returns (failure: Option<Failure>)
      requires Valid()
      modifies this`current, issued
      ensures Valid()
      ensures current == Reloaded(old(current), validator, loaded)
      ensures View() == Next(old(View()), Action.Notify(EventOf(old(current), validator, loaded)))
      ensures failure == if loaded.Unreadable? then Some(LoadFailed(loaded.id))
                         else if validator.Some? && !validator.value(loaded.config) then Some(Invalid) else None
      ensures current == if failure.None? then Some(loaded.config) else old(current)
      ensures View() == Next(old(View()), Action.Notify(
                if failure.Some? then Failed(failure.value) else Changed(old(current), loaded.config)))
      ensures old(CurrentOk(current, validator)) ==> CurrentOk(current, validator)
    {
      var was := current;
      if loaded.Unreadable? {
        Notify(Failed(LoadFailed(loaded.id)));
        return Some(LoadFailed(loaded.id));
      }
      if validator.Some? {
        if !validator.value(loaded.config) {
          Notify(Failed(Invalid));
          return Some(Invalid);
        }
      }
      current := Some(loaded.config);
      Notify(Changed(was, loaded.config));
      failure := None;
    }

    // ----- debouncing -----------------------------------------------------

    /** `timers` are the runtime's; the loader holds a handle on the one it made last. */
    function Debounced(fired: seq<Time>): Debouncer
      reads this`timers, this`debouncer, this`made, this`stopped
    {
      Debouncer(timers, debouncer, made, stopped, fired)
    }

    /** A file event; the reload waits for a debounce of quiet. */
    method DebouncedReload(now: Time)
      modifies this`timers, this`debouncer, this`made
      ensures forall fired :: Debounced(fired) == Armed(old(Debounced(fired)), now, debounce)
      ensures old(stopped) ==> timers == old(timers)
      ensures !old(stopped) ==> timers != [] && timers[|timers| - 1].deadline == now + debounce
    {
      if stopped { return; }
      if debouncer.Some? { timers := Cancelled(timers, debouncer.value); }
      timers := timers + [Timer(made, now + debounce)];
      debouncer := Some(made);
      made := made + 1;
    }

    /** The timer goes off. */
    method TimerFired(now: Time, loaded: Loaded)
      requires Valid() && InHand(Debounced([])) && timers != [] && timers[0].deadline <= now
      modifies this`timers, this`current, issued
      ensures Valid()
      ensures forall fired :: Debounced(fired + [old(timers[0].deadline)]) == Elapsed(old(Debounced(fired)), now)
      ensures current == Reloaded(old(current), validator, loaded)
      ensures View() == Next(old(View()), Action.Notify(EventOf(old(current), validator, loaded)))
    {
      Expire(now);
      var failure := Reload(loaded);
    }

    method Expire(now: Time)
      requires InHand(Debounced([])) && timers != [] && timers[0].deadline <= now
      modifies this`timers
      ensures forall fired :: Debounced(fired + [old(timers[0].deadline)]) == Elapsed(old(Debounced(fired)), now)
    {
      OneTimer(timers[0], now, 0);
      assert timers == [timers[0]];
      timers := timers[1..];
    }
  }

  lemma ListedAreClosed(h: Hub, id: nat)
    requires Inv(h) && id in h.listed
    ensures var r := CloseAll(h, h.listed); id < |r.chans| && r.chans[id].closed
  {
    CloseAllCloses(h, h.listed);
  }

  /** Closing the listed channels from the front, the next one is still open. */
  lemma OneMoreClosed(h: Hub, i: nat)
    requires Inv(h) && i < |h.listed|
    ensures var so, id := CloseAll(h, h.listed[..i]), h.listed[i];
            id < |so.chans| && !so.chans[id].closed &&
            CloseAll(h, h.listed[..i + 1]) == Put(so, id, so.chans[id].(closed := true))
  {
    PrefixIsOpen(h, i);
    assert h.listed[..i + 1] == h.listed[..i] + [h.listed[i]];
    CloseSnoc(h, h.listed[..i], h.listed[i]);
  }

  lemma PrefixIsOpen(h: Hub, i: nat)
    requires Inv(h) && i < |h.listed|
    ensures Distinct(h.listed[..i]) && (forall x <- h.listed[..i] :: x < |h.chans| && !h.chans[x].closed)
    ensures h.listed[i] < |h.chans| && !h.chans[h.listed[i]].closed && h.listed[i] !in h.listed[..i]
  {
    assert h.listed[i] in h.listed;
    forall x <- h.listed[..i] ensures x < |h.chans| && !h.chans[x].closed { assert x in h.listed; }
  }

  lemma CloseSnoc(h: Hub, ids: seq<nat>, id: nat)
    requires Distinct(ids) && (forall x <- ids :: x < |h.chans| && !h.chans[x].closed)
    requires id < |h.chans| && !h.chans[id].closed && id !in ids
    ensures var so := CloseAll(h, ids);
            !so.chans[id].closed && CloseAll(h, ids + [id]) == Put(so, id, so.chans[id].(closed := true))
  {
    CloseAllCloses(h, ids);
    assert (ids + [id])[..|ids|] == ids;
  }

  /** Unsubscribing a listed channel closes it and takes it off the list. */
  lemma Unlisted(h: Hub, i: nat)
    requires Inv(h) && i < |h.listed|
    ensures var id := h.listed[i];
            && id < |h.chans| && !h.chans[id].closed
            && Next(h, Unsubscribe(id)) == Hub(h.listed[..i] + h.listed[i + 1..],
                                               h.chans[id := h.chans[id].(closed := true)], false)
    ensures Inv(Next(h, Unsubscribe(h.listed[i])))
  {
    PrefixIsOpen(h, i);
    WithoutAt(h.listed, h.listed[i], i);
    InvNext(h, Unsubscribe(h.listed[i]));
  }

  /** Removing the first occurrence is what shifting the list does. */
  lemma {:induction false} WithoutAt(ids: seq<nat>, id: nat, i: nat)
    requires i < |ids| && ids[i] == id && id !in ids[..i]
    ensures Without(ids, id) == ids[..i] + ids[i + 1..]
    decreases |ids|
  {
    if i > 0 {
      assert ids[0] in ids[..i];
      assert ids[1..][..i - 1] == ids[..i][1..] && ids[1..][i..] == ids[i + 1..];
      WithoutAt(ids[1..], id, i - 1);
    }
  }
}
