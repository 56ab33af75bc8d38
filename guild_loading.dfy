/** The gateway's guild-loading state machine (`State` and `handle_event` in
    src/main.rs) and its typestate variant (`mod state_machine`).

    A `Ready` event announces how many guilds will arrive; each `GuildCreate`
    appends a `{name, channels}` record; when the count is reached the list is
    sorted by name, the state becomes `Done` and one `()` is sent on the done
    channel. Every `handle_event` call holds the state's mutex for its whole
    transition, so each call is one atomic step on a single value. */
module GuildLoading {
  import opened Strings
  import opened Sorting

  datatype ChannelKind = GuildCategory | GuildText | OtherKind

  /** The fields of a gateway `Channel` that the gallery builder reads. */
  datatype Channel = Channel(id: nat, name: Option<string>, kind: ChannelKind, parentId: Option<nat>)

  /** `BasicGuildInfo` */
  datatype GuildInfo = GuildInfo(name: string, channels: seq<Channel>)

  function GuildName(g: GuildInfo): string { g.name }

  datatype State =
    | PreReady
    | Ready(totalGuildsToLoad: nat, guilds: seq<GuildInfo>)
    | Done(guilds: seq<GuildInfo>)

  /** The gateway events `handle_event` distinguishes. `Ready` carries the ids
      of the guilds the bot is in; every other event kind is `OtherEvent`. */
  datatype Event =
    | ReadyEvent(guildIds: seq<nat>)
    | GuildCreate(guild: GuildInfo)
    | OtherEvent

  /** The state after one event, and whether a done signal was sent. */
  datatype Transition = Transition(state: State, sentDone: bool)

  /** One `handle_event` call, as a function of the state it finds. */
  function Step(s: State, e: Event): (r: Result<Transition>)
    ensures r.Err? <==> e.GuildCreate? && !s.Ready?
    ensures r.Ok? && r.value.sentDone ==> e.GuildCreate? && s.Ready? && r.value.state.Done?
  {
    match e
    case ReadyEvent(ids) => Ok(Transition(Ready(|ids|, []), false))
    case GuildCreate(g) =>
      if s.Ready? then
        var guilds := s.guilds + [g];
        if |guilds| >= s.totalGuildsToLoad then Ok(Transition(Done(SortBy(guilds, GuildName)), true))
        else Ok(Transition(Ready(s.totalGuildsToLoad, guilds), false))
      else Err(WrongState)
    case OtherEvent => Ok(Transition(s, false))
  }

  /** What holds of every state the machine reaches: while loading, fewer
      guilds than announced have arrived (or none at all, when zero were
      announced); once done, the guilds are in name order. */
  ghost predicate LoadingInvariant(s: State) {
    match s
    case PreReady => true
    case Ready(total, guilds) => |guilds| < total || guilds == []
    case Done(guilds) => SortedBy(guilds, GuildName)
  }

  /** The shared `Arc<Mutex<State>>` together with the done channel, of which
      only the number of `()`s sent is kept. */
  class GatewayState {
    var state: State
    var doneSignals: nat

    ghost predicate Valid()
      reads this
    {
      LoadingInvariant(state)
    }

    constructor ()
      ensures Valid()
      ensures state == PreReady && doneSignals == 0
    {
      state := PreReady;
      doneSignals := 0;
    }

    /** `Event::Ready`: whatever the state was, it becomes `Ready` expecting as
        many guilds as the event lists, none of them loaded yet. */
    method OnReady(guildIds: seq<nat>)
      requires Valid()
      modifies this
      ensures Valid()
      ensures state == Ready(|guildIds|, [])
      ensures doneSignals == old(doneSignals)
    {
      state := Ready(|guildIds|, []);
    }

    /** `Event::GuildCreate`: appends the guild while loading and completes the
        load once the announced count is reached; in any other state it
        panics and leaves the state as it was. */
    method OnGuildCreate(guild: GuildInfo) returns (r: Result<()>)
      requires Valid()
      modifies this
      ensures Valid()
      ensures old(state).Ready? ==> r == Ok(())
      ensures !old(state).Ready? ==>
        r == Err(WrongState) && state == old(state) && doneSignals == old(doneSignals)
      ensures old(state).Ready? && |old(state).guilds| + 1 < old(state).totalGuildsToLoad ==>
        state == Ready(old(state).totalGuildsToLoad, old(state).guilds + [guild])
        && doneSignals == old(doneSignals)
      ensures old(state).Ready? && |old(state).guilds| + 1 >= old(state).totalGuildsToLoad ==>
        state.Done? && SortedBy(state.guilds, GuildName)
        && multiset(state.guilds) == multiset(old(state).guilds) + multiset{guild}
        && state.guilds == SortBy(old(state).guilds + [guild], GuildName)
        && doneSignals == old(doneSignals) + 1
    {
      match state {
        case Ready(total, guilds) =>
          guilds := guilds + [guild];
          if |guilds| >= total {
            var taken := SortBy(guilds, GuildName);
            state := Done(taken);
            doneSignals := doneSignals + 1;
          } else {
            state := Ready(total, guilds);
          }
          r := Ok(());
        case _ =>
          r := Err(WrongState);
      }
    }

    /** `handle_event`: dispatches on the event kind; kinds other than `Ready`
        and `GuildCreate` change nothing. */
    method HandleEvent(e: Event) returns (r: Result<()>)
      requires Valid()
      modifies this
      ensures Valid()
      ensures Step(old(state), e).Err? ==>
        r == Err(Step(old(state), e).panic) && state == old(state) && doneSignals == old(doneSignals)
      ensures Step(old(state), e).Ok? ==>
        r == Ok(()) && state == Step(old(state), e).value.state
        && doneSignals == old(doneSignals) + (if Step(old(state), e).value.sentDone then 1 else 0)
    {
      match e {
        case ReadyEvent(ids) =>
          OnReady(ids);
          r := Ok(());
          assert Step(old(state), e) == Ok(Transition(state, false));
        case GuildCreate(g) =>
          r := OnGuildCreate(g);
        case OtherEvent =>
          r := Ok(());
          assert Step(old(state), e) == Ok(Transition(state, false));
      }
    }
  }

  /** Every transition keeps the loading invariant. */
  lemma StepKeepsInvariant(s: State, e: Event)
    requires LoadingInvariant(s)
    ensures Step(s, e).Ok? ==> LoadingInvariant(Step(s, e).value.state)
  {
  }

  /** A `Ready` event restarts loading from nothing, whatever the prior state,
      and sends no signal. */
  lemma ReadyRestartsLoading(s: State, ids: seq<nat>)
    ensures Step(s, ReadyEvent(ids)) == Ok(Transition(Ready(|ids|, []), false))
  {
  }

  /** A `GuildCreate` while loading: below the announced count it appends
      exactly that guild and sends nothing; at or past the count (so a count of
      zero completes on the first arrival) it finishes with the arrived guilds
      sorted by name and sends one signal. */
  lemma GuildCreateWhileLoading(total: nat, guilds: seq<GuildInfo>, g: GuildInfo)
    ensures Step(Ready(total, guilds), GuildCreate(g)).Ok?
    ensures |guilds| + 1 < total ==>
      Step(Ready(total, guilds), GuildCreate(g)) == Ok(Transition(Ready(total, guilds + [g]), false))
    ensures |guilds| + 1 >= total ==>
      var t := Step(Ready(total, guilds), GuildCreate(g)).value;
      t.sentDone && t.state.Done? && SortedBy(t.state.guilds, GuildName)
      && multiset(t.state.guilds) == multiset(guilds) + multiset{g}
  {
  }

  /** A `GuildCreate` before `Ready` or after completion is fatal. */
  lemma GuildCreateOutsideLoadingPanics(s: State, g: GuildInfo)
    requires !s.Ready?
    ensures Step(s, GuildCreate(g)) == Err(WrongState)
  {
  }

  /** Any other event leaves the state alone. */
  lemma OtherEventsIgnored(s: State)
    ensures Step(s, OtherEvent) == Ok(Transition(s, false))
  {
  }

  // ---------------------------------------------------------------------
  // Runs of several events

  /** After a sequence of `handle_event` calls: the state, how many done
      signals were sent and how many of the calls panicked. */
  datatype RunResult = Ran(state: State, doneSignals: nat, panics: nat)

  /** Handling `events` one after the other from `s`. Each call runs in its
      own spawned task, so a panic ends only that call: it happens before the
      state is touched, the state is kept and later events are still handled. */
  function Run(s: State, events: seq<Event>): (r: RunResult)
    ensures r.doneSignals + r.panics <= |events|
    decreases |events|
  {
    if |events| == 0 then Ran(s, 0, 0)
    else match Step(s, events[0])
      case Err(_) =>
        var rest := Run(s, events[1..]);
        Ran(rest.state, rest.doneSignals, rest.panics + 1)
      case Ok(t) =>
        var rest := Run(t.state, events[1..]);
        Ran(rest.state, rest.doneSignals + (if t.sentDone then 1 else 0), rest.panics)
  }

  /** One `GuildCreate` per guild, in the given arrival order. */
  function Arrivals(gs: seq<GuildInfo>): (es: seq<Event>)
    ensures |es| == |gs|
    ensures forall i :: 0 <= i < |gs| ==> es[i] == GuildCreate(gs[i])
  {
    seq(|gs|, i requires 0 <= i < |gs| => GuildCreate(gs[i]))
  }

  lemma ArrivalsAppend(a: seq<GuildInfo>, b: seq<GuildInfo>)
    ensures Arrivals(a + b) == Arrivals(a) + Arrivals(b)
  {
  }

  /** Arrivals that stay below the announced count only accumulate. */
  lemma {:induction false} PartialArrivals(total: nat, acc: seq<GuildInfo>, gs: seq<GuildInfo>)
    requires |acc| + |gs| < total
    ensures Run(Ready(total, acc), Arrivals(gs)) == Ran(Ready(total, acc + gs), 0, 0)
    decreases |gs|
  {
    if |gs| == 0 {
      assert acc + gs == acc;
    } else {
      assert Arrivals(gs)[1..] == Arrivals(gs[1..]);
      PartialArrivals(total, acc + [gs[0]], gs[1..]);
      assert acc + [gs[0]] + gs[1..] == acc + gs;
    }
  }

  /** The arrival that reaches the announced count completes the load with all
      arrived guilds in name order, and exactly one signal is sent. */
  lemma {:induction false} CompletingArrivals(total: nat, acc: seq<GuildInfo>, gs: seq<GuildInfo>)
    requires |acc| < total && |acc| + |gs| == total
    ensures Run(Ready(total, acc), Arrivals(gs)) == Ran(Done(SortBy(acc + gs, GuildName)), 1, 0)
    decreases |gs|
  {
    var es := Arrivals(gs);
    assert es[0] == GuildCreate(gs[0]);
    assert es[1..] == Arrivals(gs[1..]);
    if |gs| == 1 {
      assert acc + [gs[0]] == acc + gs;
      var done := Done(SortBy(acc + gs, GuildName));
      assert Step(Ready(total, acc), es[0]) == Ok(Transition(done, true));
      assert Run(done, es[1..]) == Ran(done, 0, 0);
    } else {
      var next := Ready(total, acc + [gs[0]]);
      assert Step(Ready(total, acc), es[0]) == Ok(Transition(next, false));
      CompletingArrivals(total, acc + [gs[0]], gs[1..]);
      assert acc + [gs[0]] + gs[1..] == acc + gs;
    }
  }

  /** From the start, a `Ready` announcing n >= 1 guilds followed by their n
      `GuildCreate`s in any order ends `Done` with those guilds sorted by
      name, after exactly one done signal and no panic. */
  lemma LoadCompletesOnce(ids: seq<nat>, gs: seq<GuildInfo>)
    requires |gs| == |ids| >= 1
    ensures Run(PreReady, [ReadyEvent(ids)] + Arrivals(gs)) == Ran(Done(SortBy(gs, GuildName)), 1, 0)
  {
    var es := [ReadyEvent(ids)] + Arrivals(gs);
    assert es[1..] == Arrivals(gs);
    CompletingArrivals(|ids|, [], gs);
    assert [] + gs == gs;
  }

  /** Announcing zero guilds does not complete by itself: the first
      `GuildCreate` to arrive completes the load. */
  lemma EmptyAnnouncementWaitsForOneArrival(ids: seq<nat>, g: GuildInfo)
    requires |ids| == 0
    ensures Run(PreReady, [ReadyEvent(ids)]) == Ran(Ready(0, []), 0, 0)
    ensures Run(PreReady, [ReadyEvent(ids), GuildCreate(g)]) == Ran(Done([g]), 1, 0)
  {
    var es := [ReadyEvent(ids), GuildCreate(g)];
    assert es[1..] == [GuildCreate(g)] && es[1..][1..] == [];
    assert [] + [g] == [g];
    assert SortBy([g], GuildName) == [g] by {
      assert [g][1..] == [];
    }
    var done := Done([g]);
    assert Step(Ready(0, []), GuildCreate(g)) == Ok(Transition(done, true));
    assert Run(done, es[1..][1..]) == Ran(done, 0, 0);
    assert Run(Ready(0, []), es[1..]) == Ran(done, 1, 0);
  }

  /** A `GuildCreate` beyond the announced count arrives after completion: its
      handler panics, and the completed state and its single signal stay. */
  lemma ExtraArrivalPanics(ids: seq<nat>, gs: seq<GuildInfo>, extra: GuildInfo)
    requires |gs| == |ids| >= 1
    ensures Run(PreReady, [ReadyEvent(ids)] + Arrivals(gs + [extra])) == Ran(Done(SortBy(gs, GuildName)), 1, 1)
  {
    var loaded := [ReadyEvent(ids)] + Arrivals(gs);
    assert [ReadyEvent(ids)] + Arrivals(gs + [extra]) == loaded + [GuildCreate(extra)] by {
      ArrivalsAppend(gs, [extra]);
    }
    RunAppend(PreReady, loaded, [GuildCreate(extra)]);
    LoadCompletesOnce(ids, gs);
    ArrivalAfterDone(Run(PreReady, loaded), extra);
  }

  lemma ArrivalAfterDone(r: RunResult, extra: GuildInfo)
    requires r.state.Done?
    ensures Then(r, [GuildCreate(extra)]) == Ran(r.state, r.doneSignals, r.panics + 1)
  {
    var es := [GuildCreate(extra)];
    assert Step(r.state, es[0]).Err?;
    assert es[1..] == [];
    assert Run(r.state, es) == Ran(r.state, 0, 1);
  }

  /** Running two event sequences one after the other. */
  function Then(first: RunResult, events: seq<Event>): RunResult {
    var rest := Run(first.state, events);
    Ran(rest.state, first.doneSignals + rest.doneSignals, first.panics + rest.panics)
  }

  lemma {:induction false} RunAppend(s: State, a: seq<Event>, b: seq<Event>)
    ensures Run(s, a + b) == Then(Run(s, a), b)
    decreases |a|
  {
    if |a| == 0 {
      assert a + b == b;
    } else {
      assert (a + b)[0] == a[0] && (a + b)[1..] == a[1..] + b;
      match Step(s, a[0])
      case Err(_) => RunAppend(s, a[1..], b);
      case Ok(t) => RunAppend(t.state, a[1..], b);
    }
  }

  /** Before `Ready`, every `GuildCreate` handler panics and changes nothing. */
  lemma {:induction false} PanicsBeforeReady(early: seq<GuildInfo>, rest: seq<Event>)
    ensures var r := Run(PreReady, rest);
      Run(PreReady, Arrivals(early) + rest) == Ran(r.state, r.doneSignals, r.panics + |early|)
    decreases |early|
  {
    if |early| == 0 {
      assert Arrivals(early) + rest == rest;
    } else {
      var es := Arrivals(early) + rest;
      assert es[0] == GuildCreate(early[0]);
      assert es[1..] == Arrivals(early[1..]) + rest;
      PanicsBeforeReady(early[1..], rest);
    }
  }

  /** Guilds handled before `Ready` are lost. The handlers are spawned tasks,
      so a `GuildCreate` task can take the mutex before the `Ready` task does;
      it finds `PreReady`, panics, and its guild is dropped. The load then
      waits for guilds that were already dropped: it never completes and no
      done signal is sent. */
  lemma EarlyArrivalsLost(ids: seq<nat>, gs: seq<GuildInfo>, k: nat)
    requires |gs| == |ids| && 1 <= k <= |gs|
    ensures Run(PreReady, Arrivals(gs[..k]) + [ReadyEvent(ids)] + Arrivals(gs[k..]))
      == Ran(Ready(|ids|, gs[k..]), 0, k)
  {
    var late := [ReadyEvent(ids)] + Arrivals(gs[k..]);
    assert Arrivals(gs[..k]) + [ReadyEvent(ids)] + Arrivals(gs[k..]) == Arrivals(gs[..k]) + late;
    PanicsBeforeReady(gs[..k], late);
    assert late[1..] == Arrivals(gs[k..]);
    PartialArrivals(|ids|, [], gs[k..]);
    assert [] + gs[k..] == gs[k..];
  }

  /** Event handling that keeps early guilds: the `GuildCreate`s seen before
      the first `Ready` are held back and handled right after it. `None`
      while no `Ready` has been seen. */
  function BufferedRun(early: seq<GuildInfo>, events: seq<Event>): (r: Option<RunResult>)
    ensures r.None? <==> forall i :: 0 <= i < |events| ==> !events[i].ReadyEvent?
    decreases |events|
  {
    if |events| == 0 then None
    else match events[0]
      case ReadyEvent(_) => Some(Run(PreReady, [events[0]] + Arrivals(early) + events[1..]))
      case GuildCreate(g) =>
        assert forall i :: 0 < i < |events| ==> events[i] == events[1..][i - 1];
        BufferedRun(early + [g], events[1..])
      case OtherEvent =>
        assert forall i :: 0 < i < |events| ==> events[i] == events[1..][i - 1];
        BufferedRun(early, events[1..])
  }

  lemma {:induction false} HeldBack(early: seq<GuildInfo>, hs: seq<GuildInfo>, rest: seq<Event>)
    ensures BufferedRun(early, Arrivals(hs) + rest) == BufferedRun(early + hs, rest)
    decreases |hs|
  {
    if |hs| == 0 {
      assert Arrivals(hs) + rest == rest;
      assert early + hs == early;
    } else {
      var es := Arrivals(hs) + rest;
      assert es[0] == GuildCreate(hs[0]);
      assert es[1..] == Arrivals(hs[1..]) + rest;
      HeldBack(early + [hs[0]], hs[1..], rest);
      assert early + [hs[0]] + hs[1..] == early + hs;
    }
  }

  /** With early guilds held back, the load completes with all guilds sorted
      by name, one done signal and no panic, wherever `Ready` falls among the
      arrivals. */
  lemma BufferedLoadCompletes(ids: seq<nat>, gs: seq<GuildInfo>, k: nat)
    requires |gs| == |ids| >= 1 && k <= |gs|
    ensures BufferedRun([], Arrivals(gs[..k]) + [ReadyEvent(ids)] + Arrivals(gs[k..]))
      == Some(Ran(Done(SortBy(gs, GuildName)), 1, 0))
  {
    var late := [ReadyEvent(ids)] + Arrivals(gs[k..]);
    var replay := [ReadyEvent(ids)] + Arrivals(gs[..k]) + Arrivals(gs[k..]);
    assert replay == [ReadyEvent(ids)] + Arrivals(gs) by {
      ArrivalsAppend(gs[..k], gs[k..]);
      assert gs[..k] + gs[k..] == gs;
    }
    calc {
      BufferedRun([], Arrivals(gs[..k]) + [ReadyEvent(ids)] + Arrivals(gs[k..]));
      { assert Arrivals(gs[..k]) + [ReadyEvent(ids)] + Arrivals(gs[k..]) == Arrivals(gs[..k]) + late; }
      BufferedRun([], Arrivals(gs[..k]) + late);
      { HeldBack([], gs[..k], late); assert [] + gs[..k] == gs[..k]; }
      BufferedRun(gs[..k], late);
      { assert late[0] == ReadyEvent(ids) && late[1..] == Arrivals(gs[k..]); }
      Some(Run(PreReady, replay));
    }
    LoadCompletesOnce(ids, gs);
  }

  /** When guild names are distinct, the completed state does not depend on
      the order in which the guilds arrived. */
  lemma ArrivalOrderIrrelevant(ids: seq<nat>, gs1: seq<GuildInfo>, gs2: seq<GuildInfo>)
    requires |gs1| == |ids| >= 1
    requires multiset(gs1) == multiset(gs2)
    requires KeyInjective(gs1, GuildName)
    ensures Run(PreReady, [ReadyEvent(ids)] + Arrivals(gs1)) == Run(PreReady, [ReadyEvent(ids)] + Arrivals(gs2))
  {
    assert |gs2| == |multiset(gs2)| == |gs1|;
    LoadCompletesOnce(ids, gs1);
    LoadCompletesOnce(ids, gs2);
    SortByOrderIndependent(gs1, gs2, GuildName);
  }

  // ---------------------------------------------------------------------
  // The typestate variant (`mod state_machine`)

  /** `GalleryBuildingState<PreReady>` */
  datatype TypestatePreReady = TypestatePreReady
  /** `GalleryBuildingState<Ready>` */
  datatype TypestateReady = TypestateReady(totalGuildsToLoad: nat, guilds: seq<GuildInfo>)
  /** `GalleryBuildingState<Done>` */
  datatype TypestateDone = TypestateDone(guilds: seq<GuildInfo>)

  /** `GalleryBuildingState<PreReady>::ready` */
  function TypestateToReady(p: TypestatePreReady, totalGuildsToLoad: nat): TypestateReady {
    TypestateReady(totalGuildsToLoad, [])
  }

  /** `GalleryBuildingState<Ready>::done` */
  function TypestateToDone(r: TypestateReady): TypestateDone {
    TypestateDone(r.guilds)
  }

  /** The typestate transitions agree with `handle_event`: `ready` starts from
      the same empty list as a `Ready` event from any state, and `done` keeps
      the arrived guilds exactly as they came, which `handle_event` then only
      reorders by name. */
  lemma TypestateAgreesWithHandleEvent(s: State, ids: seq<nat>, r: TypestateReady, g: GuildInfo)
    requires |r.guilds| + 1 >= r.totalGuildsToLoad
    ensures var t := TypestateToReady(TypestatePreReady, |ids|);
      Step(s, ReadyEvent(ids)).value.state == Ready(t.totalGuildsToLoad, t.guilds)
    ensures var d := TypestateToDone(TypestateReady(r.totalGuildsToLoad, r.guilds + [g]));
      d.guilds == r.guilds + [g]
      && Step(Ready(r.totalGuildsToLoad, r.guilds), GuildCreate(g)).value.state == Done(SortBy(d.guilds, GuildName))
  {
  }
}
