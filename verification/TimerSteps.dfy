/**
 The daemon as other tasks, interrupts and its own callbacks see it: a command may arrive at any moment, also
 while the daemon has an expired timer, a command, or both in hand. An expired timer is taken off its list, its
 callback runs, and it is listed again or a restart is sent for it; what arrives in between is queued first.
 */
module TimerSteps {
  import opened ListSpec
  import opened TwoLists
  import opened TimerModel
  import opened TimerRuns
  import opened TimerRoom

  datatype Option<T> = None | Some(value: T)

  /**
   The service, and what the daemon has in hand: a command received, whose timer is off the list; a reading of the
   clock that has found a rollover, whose timers are being dealt with; and an expired timer that is off the list.
   The callback of that timer is recorded in the log when the daemon has done with the timer.
   */
  datatype Daemon = Daemon(service: Service, command: Option<Message>, rollover: Option<nat>, expired: Option<Entry>)

  datatype Piece =
    | Arrives(m: Message)      // from a task, an interrupt, or a callback
    | Receives | Reads(now: nat) | TakesOff | Serves | TurnsOver | CarriesOut

  function Boundary(d: Daemon): nat {
    (Epoch(d.service.now) + 1) * TICK_MODULUS
  }

  /** The service with the expired timer that is in hand back on the list. */
  function Back(d: Daemon): Service {
    if d.expired.Some? then d.service.(pending := [d.expired.value] + d.service.pending) else d.service
  }

  function Idle(s: Service): Daemon {
    Daemon(s, None, None, None)
  }

  ghost predicate Possible(d: Daemon, p: Piece) {
    var s := d.service;
    match p
    case Arrives(_) => true
    case Receives => d.command.None? && d.rollover.None? && d.expired.None? && s.queue != []
                     && s.queue[0].timer in s.timers
    case Reads(now) => d.rollover.None? && d.expired.None? && TimeOk(s, now)
    case TakesOff =>
      && d.expired.None? && s.pending != []
      && if d.rollover.Some? then s.pending[0].value < Boundary(d)
         else d.command.None? && s.pending[0].value <= s.now
    case Serves => d.expired.Some? && d.expired.value.owner in s.timers
    case TurnsOver => d.rollover.Some? && d.expired.None?
                      && (s.pending == [] || Boundary(d) <= s.pending[0].value)
    case CarriesOut => d.command.Some? && d.rollover.None? && d.expired.None? && d.command.value.timer in s.timers
                       && MessageOk(d.command.value, s.now)
  }

  ghost function Then(d: Daemon, p: Piece): Daemon
    requires Possible(d, p)
  {
    var s := d.service;
    match p
    case Arrives(m) => if |s.queue| < QUEUE_LENGTH then d.(service := s.(queue := s.queue + [m])) else d
    case Receives => d.(service := Taken(s), command := Some(s.queue[0]))
    case Reads(now) =>
      if Epoch(now) == Epoch(s.now) then d.(service := s.(now := now)) else d.(rollover := Some(now))
    case TakesOff => d.(service := Pop(s), expired := Some(s.pending[0]))
    case Serves =>
      var served := if d.rollover.Some? then DrainOne(Back(d), Boundary(d), d.rollover.value) else Expire(Back(d));
      d.(service := served, expired := None)
    case TurnsOver => d.(service := s.(now := d.rollover.value), rollover := None)
    case CarriesOut => d.(service := Apply(s, d.command.value), command := None)
  }

  ghost predicate IsHistory(ds: seq<Daemon>, ps: seq<Piece>) {
    && |ds| == |ps| + 1
    && forall i {:trigger ps[i]} :: 0 <= i < |ps| ==> Possible(ds[i], ps[i]) && ds[i + 1] == Then(ds[i], ps[i])
  }

  // ---------------------------------------------------------------- the invariant

  /** The rollover in hand is the next one, and is over. */
  ghost predicate RolloverOk(d: Daemon) {
    d.rollover.Some? ==>
      var at := d.rollover.value;
      && Boundary(d) <= at
      && (Epoch(at) == Epoch(d.service.now) + 1 || (d.service.pending == [] && d.expired.None?))
  }

  ghost predicate CommandOk(d: Daemon) {
    d.command.Some? ==>
      d.command.value.timer in d.service.timers && !HasOwner(Back(d).pending, d.command.value.timer)
  }

  ghost predicate ExpiredOk(d: Daemon) {
    d.expired.Some? ==>
      if d.rollover.Some? then d.expired.value.value < Boundary(d)
      else d.command.None? && d.expired.value.value <= d.service.now
  }

  ghost predicate Sound(d: Daemon) {
    Inv(Back(d)) && RolloverOk(d) && CommandOk(d) && ExpiredOk(d)
  }

  lemma BackTaken(d: Daemon)
    requires Possible(d, TakesOff)
    ensures Back(Then(d, TakesOff)) == Back(d)
  {
    hide Epoch;
    assert [d.service.pending[0]] + d.service.pending[1..] == d.service.pending;
  }

  lemma ArrivesSound(d: Daemon, m: Message)
    requires Sound(d)
    ensures Sound(Then(d, Arrives(m)))
  {
    hide Epoch, Sorted, DistinctOwners, Owned, WithinEpochs, PositivePeriods, NeverEarly;
  }

  lemma ReceivesSound(d: Daemon)
    requires Sound(d) && Possible(d, Receives)
    ensures Sound(Then(d, Receives))
  {
    hide Epoch, Without, Sorted, DistinctOwners, Owned, WithinEpochs, PositivePeriods, NeverEarly;
    var s := d.service;
    WithoutKeeps(s.pending, s.queue[0].timer, s.timers, Epoch(s.now));
  }

  lemma ReadsSound(d: Daemon, now: nat)
    requires Sound(d) && Possible(d, Reads(now))
    ensures Sound(Then(d, Reads(now)))
  {
    hide Epoch, Sorted, DistinctOwners, Owned, PositivePeriods, NeverEarly, HasOwner;
    LaterEpochs(d.service.now, now);
    if d.service.pending != [] {
      EpochStep(d.service.now, now);
    }
  }

  lemma LaterEpochs(last: nat, now: nat)
    requires last <= now
    ensures Epoch(now) != Epoch(last) ==> (Epoch(last) + 1) * TICK_MODULUS <= now
  {
  }

  lemma DrainOneListsNone(s: Service, boundary: nat, at: nat, timer: nat)
    requires s.pending != [] && !HasOwner(s.pending, timer)
    ensures !HasOwner(DrainOne(s, boundary, at).pending, timer)
  {
    hide Insert;
    var e := s.pending[0];
    if IsAuto(s.timers, e.owner) {
      NotInserted(s.pending[1..], Entry(e.owner, e.value + s.timers[e.owner].period), timer);
    }
  }

  lemma ServesSound(d: Daemon)
    requires Sound(d) && Possible(d, Serves)
    ensures Sound(Then(d, Serves))
  {
    hide Epoch, Inv, DrainOne, Expire, HasOwner;
    var s := Back(d);
    if d.rollover.Some? {
      DrainOneKeepsInv(s, d.rollover.value);
      DrainOneNow(s, Boundary(d), d.rollover.value);
      DrainOneTimers(s, Boundary(d), d.rollover.value);
      if d.command.Some? {
        DrainOneListsNone(s, Boundary(d), d.rollover.value, d.command.value.timer);
      }
    } else {
      ExpireKeepsInv(s);
    }
  }

  lemma DrainOneTimers(s: Service, boundary: nat, at: nat)
    requires s.pending != []
    ensures DrainOne(s, boundary, at).timers == s.timers
  {
  }

  lemma TurnsOverSound(d: Daemon)
    requires Sound(d) && Possible(d, TurnsOver)
    ensures Sound(Then(d, TurnsOver))
  {
    hide Epoch, DistinctOwners, Owned, PositivePeriods, NeverEarly, HasOwner;
    var s, at := d.service, d.rollover.value;
    forall i | 0 <= i < |s.pending| ensures Epoch(s.pending[i].value) == Epoch(at) {
      EpochFrom(s.pending[i].value, Epoch(s.now));
    }
  }

  lemma CarriesOutSound(d: Daemon)
    requires Sound(d) && Possible(d, CarriesOut)
    ensures Sound(Then(d, CarriesOut))
  {
    hide Epoch, Inv, Apply, HasOwner;
    ApplyKeepsInv(d.service, d.command.value);
  }

  lemma PieceKeepsSound(d: Daemon, p: Piece)
    requires Sound(d) && Possible(d, p)
    ensures Sound(Then(d, p))
  {
    hide Epoch, Inv, DrainOne, Expire, Apply, HasOwner;
    match p
    case Arrives(m) => ArrivesSound(d, m);
    case Receives => ReceivesSound(d);
    case Reads(now) => ReadsSound(d, now);
    case TakesOff => BackTaken(d);
    case Serves => ServesSound(d);
    case TurnsOver => TurnsOverSound(d);
    case CarriesOut => CarriesOutSound(d);
  }

  /** Whenever a command arrives, the service is in order once the timer in hand is counted in. */
  lemma {:induction false} HistoryKeepsSound(ds: seq<Daemon>, ps: seq<Piece>, n: nat)
    requires IsHistory(ds, ps) && Sound(ds[0]) && n <= |ps|
    ensures Sound(ds[n])
  {
    hide Possible, Then, Sound;
    if n > 0 {
      HistoryKeepsSound(ds, ps, n - 1);
      assert Possible(ds[n - 1], ps[n - 1]) && ds[n] == Then(ds[n - 1], ps[n - 1]);
      PieceKeepsSound(ds[n - 1], ps[n - 1]);
    }
  }

  // ---------------------------------------------------------------- room in the queue

  /** Commands queued or in hand, and auto-reload timers listed or in hand. */
  function FullLoad(d: Daemon): nat {
    Load(Back(d)) + if d.command.Some? then 1 else 0
  }

  lemma PieceRoom(d: Daemon, p: Piece)
    requires Sound(d) && Possible(d, p) && FullLoad(d) <= QUEUE_LENGTH
    requires p.Arrives? ==> FullLoad(d) < QUEUE_LENGTH
    ensures FullLoad(Then(d, p)) <= QUEUE_LENGTH && Then(d, p).service.lost == d.service.lost
  {
    hide Epoch, Inv, DrainOne, Expire, Apply, HasOwner, Autos, Without;
    match p
    case Arrives(m) =>
    case Receives => AutosWithout(d.service.pending, d.service.queue[0].timer, d.service.timers);
    case Reads(_) =>
    case TakesOff => BackTaken(d);
    case Serves =>
      if d.rollover.Some? {
        DrainOneConserves(Back(d), Boundary(d), d.rollover.value);
      } else {
        ExpireConserves(Back(d));
      }
    case TurnsOver =>
    case CarriesOut => ApplyLoad(d.service, d.command.value);
  }

  lemma ApplyLoad(s: Service, m: Message)
    requires m.timer in s.timers && !HasOwner(s.pending, m.timer) && Load(s) < QUEUE_LENGTH
    ensures Load(Apply(s, m)) <= QUEUE_LENGTH && Apply(s, m).lost == s.lost
  {
    hide Insert;
    var timers := Apply(s, m).timers;
    AutosSame(s.pending, s.timers, timers);
    AutosSame(s.pending, s.timers, SetActive(s, m.timer, true).timers);
    AutosInsert(s.pending, Entry(m.timer, m.value + s.timers[m.timer].period), timers, 0);
    AutosInsert(s.pending, Entry(m.timer, s.now + m.value), timers, 0);
  }

  /** Whatever arrives, arrives while the full load is below the length of the queue. */
  ghost predicate ArriveWithRoom(ds: seq<Daemon>, ps: seq<Piece>) {
    forall i :: 0 <= i < |ps| < |ds| && ps[i].Arrives? ==> FullLoad(ds[i]) < QUEUE_LENGTH
  }

  /** While commands arrive with room to spare, in the middle of a step of the daemon or not, no restart is lost. */
  lemma {:induction false} RoomKept(ds: seq<Daemon>, ps: seq<Piece>, n: nat)
    requires IsHistory(ds, ps) && Sound(ds[0]) && n <= |ps|
    requires FullLoad(ds[0]) <= QUEUE_LENGTH && ArriveWithRoom(ds, ps)
    ensures FullLoad(ds[n]) <= QUEUE_LENGTH && ds[n].service.lost == ds[0].service.lost
  {
    hide Possible, Then, Sound, FullLoad;
    if n > 0 {
      RoomKept(ds, ps, n - 1);
      HistoryKeepsSound(ds, ps, n - 1);
      assert Possible(ds[n - 1], ps[n - 1]) && ds[n] == Then(ds[n - 1], ps[n - 1]);
      PieceRoom(ds[n - 1], ps[n - 1]);
    }
  }

  // ---------------------------------------------------------------- exactly once

  /** The only command for the timer is the one in hand: to start it as of its k-th expiry. */
  ghost predicate Held(d: Daemon, t: nat, start: nat, period: nat, before: seq<nat>, k: nat) {
    var s := Back(d);
    && d.command.Some? && IsStart(d.command.value.id) && d.command.value.timer == t
    && d.command.value.value == Due(start, period, k)
    && IsAuto(s.timers, t) && s.timers[t].period == period
    && Fired(s.log, t) == before + Dues(start, period, k)
    && !HasOwner(s.pending, t) && !Queued(s.queue, t)
  }

  predicate InHand(d: Daemon, t: nat) {
    d.command.Some? && d.command.value.timer == t
  }

  /**
   Exactly the first k expiries of timer t have been called back, and it is listed or in hand for the next one, or
   the one start command for it is queued or in hand.
   */
  ghost predicate OnCourse(d: Daemon, t: nat, start: nat, period: nat, before: seq<nat>, k: nat) {
    if InHand(d, t) then Held(d, t, start, period, before, k) else Chain(Back(d), t, start, period, before, k)
  }

  /** On course if no restart of the timer has been lost beyond the given count; gone for good if one has. */
  ghost predicate Followed(d: Daemon, lost: nat, t: nat, start: nat, period: nat, before: seq<nat>, k: nat) {
    if d.service.lost[t] == lost then OnCourse(d, t, start, period, before, k)
    else lost < d.service.lost[t] && !InHand(d, t) && Gone(Back(d), t, start, period, before, k)
  }

  /** The piece deals with timer t. */
  predicate Concerns(d: Daemon, p: Piece, t: nat) {
    match p
    case Arrives(m) => m.timer == t
    case Receives => d.service.queue != [] && d.service.queue[0].timer == t
    case Serves => d.expired.Some? && d.expired.value.owner == t
    case CarriesOut => InHand(d, t)
    case _ => false
  }

  /** Any other leaves all that concerns t alone. */
  lemma PieceOther(d: Daemon, p: Piece, t: nat)
    requires Sound(d) && Possible(d, p) && !Concerns(d, p, t)
    ensures SameFor(Back(d), Back(Then(d, p)), t) && (InHand(Then(d, p), t) <==> InHand(d, t))
  {
    hide Epoch, Inv, DrainOne, Expire, Apply, HasOwner, Without, SameFor;
    SameForSelf(Back(d), t);
    match p
    case Arrives(m) => PostOther(Back(d), m, t);
    case Receives => TakeOther(d.service, t);
    case Reads(now) => SameAt(d.service, now, t);
    case TakesOff => BackTaken(d);
    case Serves =>
      if d.rollover.Some? {
        DrainOneOther(Back(d), Boundary(d), d.rollover.value, t);
      } else {
        ExpireOther(Back(d), t);
      }
    case TurnsOver => SameAt(d.service, d.rollover.value, t);
    case CarriesOut => ApplyOther(d.service, d.command.value, t);
  }

  lemma SameAt(s: Service, now: nat, t: nat)
    ensures SameFor(s, s.(now := now), t)
  {
    hide Fired, HasOwner, Listed, Queued, StartQueuedOnce;
  }

  lemma FollowedSame(d: Daemon, d': Daemon, lost: nat, t: nat, start: nat, period: nat, before: seq<nat>, k: nat)
    requires Followed(d, lost, t, start, period, before, k) && SameFor(Back(d), Back(d'), t)
    requires InHand(d', t) <==> InHand(d, t)
    requires d'.command == d.command || !InHand(d, t)
    ensures Followed(d', lost, t, start, period, before, k)
  {
    hide Fired, HasOwner, Listed, Queued, StartQueuedOnce, Due, Dues;
  }

  /** The start command of the timer is taken in hand. */
  lemma ReceivesOwn(d: Daemon, t: nat, start: nat, period: nat, before: seq<nat>, k: nat)
    requires Possible(d, Receives) && d.service.queue[0].timer == t && OnCourse(d, t, start, period, before, k)
    ensures OnCourse(Then(d, Receives), t, start, period, before, k)
  {
    hide Fired, Due, Dues, Without;
    OwnStartAtHead(d.service, t, start, period, before, k);
    WithoutAbsent(d.service.pending, t);
  }

  /** And carried out. */
  lemma CarriesOutOwn(d: Daemon, t: nat, start: nat, period: nat, before: seq<nat>, k: nat) returns (k': nat)
    requires Possible(d, CarriesOut) && Held(d, t, start, period, before, k)
    ensures k <= k' && Followed(Then(d, CarriesOut), d.service.lost[t], t, start, period, before, k')
  {
    hide Fired, Due, Dues, HasOwner, Queued, Insert, Chain, Gone;
    var s, m := d.service, d.command.value;
    var s1 := SetActive(s, t, true);
    DueNext(start, period, k);
    FiredOwn(s1, t, start, period, before, k, s.now);
    if s.now < m.value + period {
      ListOwn(s1, t, start, period, before, k);
      k' := k;
    } else {
      ReloadOwn(CallBack(s1, t, m.value + period, s.now), t, start, period, before, k + 1);
      k' := k + 1;
    }
  }

  lemma DueNext(start: nat, period: nat, k: nat)
    ensures Due(start, period, k + 1) == Due(start, period, k) + period
  {
  }

  /** The timer itself is dealt with. */
  lemma ServesOwn(d: Daemon, t: nat, start: nat, period: nat, before: seq<nat>, k: nat) returns (k': nat)
    requires Sound(d) && Possible(d, Serves) && d.expired.value.owner == t && OnCourse(d, t, start, period, before, k)
    ensures k <= k' && Followed(Then(d, Serves), d.service.lost[t], t, start, period, before, k')
  {
    hide Epoch, Inv, DrainOne, Expire, Chain, Gone, HasOwner, DistinctOwners;
    HeadOwner(Back(d).pending);
    InvDistinct(Back(d));
    assert !InHand(d, t);
    if d.rollover.Some? {
      k' := ChainDrainOne(Back(d), Boundary(d), d.rollover.value, t, start, period, before, k);
    } else {
      k' := ChainExpire(Back(d), t, start, period, before, k);
    }
  }

  lemma InvDistinct(s: Service)
    requires Inv(s)
    ensures DistinctOwners(s.pending)
  {
  }

  lemma CoursePiece(d: Daemon, p: Piece, t: nat, start: nat, period: nat, before: seq<nat>, k: nat) returns (k': nat)
    requires Sound(d) && Possible(d, p) && OnCourse(d, t, start, period, before, k)
    requires p.Arrives? ==> p.m.timer != t
    ensures k <= k' && Followed(Then(d, p), d.service.lost[t], t, start, period, before, k')
  {
    hide Sound, Possible, Then, Held, Chain, SameFor;
    if !Concerns(d, p, t) {
      PieceOther(d, p, t);
      OtherCommand(d, p, t);
      FollowedSame(d, Then(d, p), d.service.lost[t], t, start, period, before, k);
      k' := k;
    } else {
      match p
      case Receives =>
        QueueThere(d);
        ReceivesOwn(d, t, start, period, before, k);
        k' := k;
      case Serves => k' := ServesOwn(d, t, start, period, before, k);
      case CarriesOut => k' := CarriesOutOwn(d, t, start, period, before, k);
    }
  }

  lemma QueueThere(d: Daemon)
    requires Possible(d, Receives)
    ensures d.service.queue != [] && Then(d, Receives).service.lost == d.service.lost
  {
    hide Epoch, Without;
  }

  lemma OtherCommand(d: Daemon, p: Piece, t: nat)
    requires Possible(d, p) && !Concerns(d, p, t)
    ensures Then(d, p).command == d.command || !InHand(d, t)
  {
    hide Epoch, DrainOne, Expire, Apply;
  }

  /** A timer that is gone is not concerned by any piece until a command for it arrives. */
  lemma GoneUnconcerned(d: Daemon, p: Piece, t: nat)
    requires Sound(d) && Possible(d, p) && !InHand(d, t)
    requires !HasOwner(Back(d).pending, t) && !Queued(d.service.queue, t)
    requires p.Arrives? ==> p.m.timer != t
    ensures !Concerns(d, p, t)
  {
    hide Epoch, DrainOne, Expire, Apply, Inv;
    if d.expired.Some? { assert Back(d).pending[0] == d.expired.value; }
  }

  /**
   Exactly once and free of drift, with commands for other timers arriving at any moment: the timer is on course,
   at each moment, if and only if no restart of it has been lost; once one has been, it is gone.
   */
  lemma {:induction false} ExactlyOnceThroughout(ds: seq<Daemon>, ps: seq<Piece>, n: nat,
                                                 t: nat, start: nat, period: nat, before: seq<nat>) returns (k: nat)
    requires IsHistory(ds, ps) && Sound(ds[0]) && n <= |ps|
    requires OnCourse(ds[0], t, start, period, before, 0)
    requires forall i :: 0 <= i < |ps| && ps[i].Arrives? ==> ps[i].m.timer != t
    ensures Followed(ds[n], ds[0].service.lost[t], t, start, period, before, k)
    ensures OnCourse(ds[n], t, start, period, before, k) <==> ds[n].service.lost[t] == ds[0].service.lost[t]
  {
    hide Possible, Then, Sound, Held, Chain, Fired, Dues, HasOwner, Queued, SameFor;
    k := 0;
    if n > 0 {
      k := ExactlyOnceThroughout(ds, ps, n - 1, t, start, period, before);
      var d, p := ds[n - 1], ps[n - 1];
      HistoryKeepsSound(ds, ps, n - 1);
      assert ds[n] == Then(d, p) && Possible(d, p);
      if d.service.lost[t] == ds[0].service.lost[t] {
        k := CoursePiece(d, p, t, start, period, before, k);
      } else {
        GoneUnconcerned(d, p, t);
        PieceOther(d, p, t);
        FollowedSame(d, ds[n], ds[0].service.lost[t], t, start, period, before, k);
      }
    }
    if ds[n].service.lost[t] != ds[0].service.lost[t] {
      GoneNotChain(Back(ds[n]), t, start, period, before, k);
    }
  }

  /** With room for whatever arrives it is on course for ever: the exactly-once promise without exception. */
  lemma ExactlyOnceWithRoom(ds: seq<Daemon>, ps: seq<Piece>, n: nat,
                            t: nat, start: nat, period: nat, before: seq<nat>) returns (k: nat)
    requires IsHistory(ds, ps) && Sound(ds[0]) && n <= |ps|
    requires FullLoad(ds[0]) <= QUEUE_LENGTH && ArriveWithRoom(ds, ps)
    requires OnCourse(ds[0], t, start, period, before, 0)
    requires forall i :: 0 <= i < |ps| && ps[i].Arrives? ==> ps[i].m.timer != t
    ensures OnCourse(ds[n], t, start, period, before, k)
  {
    hide Possible, Then, Sound, OnCourse, FullLoad, ArriveWithRoom;
    RoomKept(ds, ps, n);
    k := ExactlyOnceThroughout(ds, ps, n, t, start, period, before);
  }

  // ---------------------------------------------------------------- turns and commands, taken apart

  /** The daemon gets from one state to the other by itself. */
  ghost predicate Reaches(d: Daemon, d': Daemon) {
    exists ds, ps :: IsHistory(ds, ps) && ds[0] == d && ds[|ps|] == d' && NothingArrives(ps)
  }

  predicate NothingArrives(ps: seq<Piece>) {
    forall i :: 0 <= i < |ps| ==> !ps[i].Arrives?
  }

  lemma ReachesSelf(d: Daemon)
    ensures Reaches(d, d)
  {
    var none: seq<Piece> := [];
    assert IsHistory([d], none) && [d][|none|] == d;
  }

  lemma ReachesNext(d: Daemon, d': Daemon, p: Piece)
    requires Reaches(d, d') && Possible(d', p) && !p.Arrives?
    ensures Reaches(d, Then(d', p))
  {
    hide Possible, Then;
    var ds, ps :| IsHistory(ds, ps) && ds[0] == d && ds[|ps|] == d' && NothingArrives(ps);
    var es, qs := ds + [Then(d', p)], ps + [p];
    assert IsHistory(es, qs) by {
      forall i {:trigger qs[i]} | 0 <= i < |qs| ensures Possible(es[i], qs[i]) && es[i + 1] == Then(es[i], qs[i]) {
        if i < |ps| { assert qs[i] == ps[i]; }
      }
    }
    assert es[0] == d && es[|qs|] == Then(d', p);
  }

  /** One expired timer of the ending epoch. */
  lemma DrainOneInPieces(d: Daemon, d': Daemon)
    requires Reaches(d, d') && Inv(d'.service) && Possible(d', TakesOff) && d'.rollover.Some?
    ensures Reaches(d, d'.(service := DrainOne(d'.service, Boundary(d'), d'.rollover.value)))
  {
    hide Reaches, Epoch, Inv, DrainOne;
    HeadKnown(d'.service);
    var d1 := Then(d', TakesOff);
    BackTaken(d');
    ReachesNext(d, d', TakesOff);
    ReachesNext(d, d1, Serves);
  }

  lemma {:induction false} DrainInPieces(d: Daemon, d': Daemon)
    requires Reaches(d, d') && Inv(d'.service) && d'.rollover.Some? && d'.expired.None?
    requires Boundary(d') <= d'.rollover.value
    ensures PositivePeriods(d'.service.timers)
    ensures var s := Drain(d'.service, Boundary(d'), d'.rollover.value);
            Reaches(d, d'.(service := s)) && (s.pending == [] || Boundary(d') <= s.pending[0].value)
    decreases Slack(d'.service.pending, Boundary(d'))
  {
    hide Reaches, Epoch, Inv, DrainOne;
    var s, at := d'.service, d'.rollover.value;
    InvPositive(s);
    if s.pending != [] && s.pending[0].value < Boundary(d') {
      var d1 := d'.(service := DrainOne(s, Boundary(d'), at));
      DrainOneInPieces(d, d');
      DrainOneUsesSlack(s, Boundary(d'), at);
      DrainOneKeepsInv(s, at);
      DrainOneNow(s, Boundary(d'), at);
      DrainInPieces(d, d1);
    }
  }

  /** Reading the time. */
  lemma SampleInPieces(d: Daemon, d': Daemon, now: nat)
    requires Reaches(d, d') && Inv(d'.service) && Possible(d', Reads(now))
    ensures PositivePeriods(d'.service.timers) && Reaches(d, d'.(service := Sample(d'.service, now)))
  {
    hide Reaches, Epoch, Inv, Drain;
    var s := d'.service;
    InvPositive(s);
    ReachesNext(d, d', Reads(now));
    var d1 := Then(d', Reads(now));
    if Epoch(now) != Epoch(s.now) {
      LaterEpochs(s.now, now);
      DrainInPieces(d, d1);
      DrainKeepsTimers(s, Boundary(d'), now);
      ReachesNext(d, d1.(service := Drain(s, Boundary(d'), now)), TurnsOver);
    }
  }

  lemma TurnInPieces(s: Service, now: nat)
    requires Inv(s) && TimeOk(s, now)
    ensures Reaches(Idle(s), Idle(Step(s, DaemonTurn(now))))
  {
    hide Reaches, Epoch, Inv, Drain, Expire;
    ReachesSelf(Idle(s));
    SampleInPieces(Idle(s), Idle(s), now);
    if Epoch(now) == Epoch(s.now) && s.pending != [] && s.pending[0].value <= now {
      HeadKnown(s);
      var d1 := Idle(s.(now := now));
      BackTaken(d1);
      ReachesNext(Idle(s), d1, TakesOff);
      ReachesNext(Idle(s), Then(d1, TakesOff), Serves);
    }
  }

  lemma CommandInPieces(s: Service, now: nat)
    requires Inv(s) && Guard(s, HandleCommand(now))
    ensures Reaches(Idle(s), Idle(Step(s, HandleCommand(now))))
  {
    hide Reaches, Epoch, Inv, Sample, Apply, Without;
    TakenKeepsInv(s, now);
    InvPositive(Taken(s));
    var d1 := Then(Idle(s), Receives);
    ReachesSelf(Idle(s));
    ReachesNext(Idle(s), Idle(s), Receives);
    SampleInPieces(Idle(s), d1, now);
    ReachesNext(Idle(s), d1.(service := Sample(Taken(s), now)), CarriesOut);
  }

  /** Each step of module TimerRuns is a history of pieces with nothing arriving in between. */
  lemma StepInPieces(s: Service, a: Action)
    requires Inv(s) && Guard(s, a)
    ensures match a
            case Post(m) => Then(Idle(s), Arrives(m)) == Idle(Step(s, a))
            case _ => Reaches(Idle(s), Idle(Step(s, a)))
  {
    match a
    case DaemonTurn(now) => TurnInPieces(s, now);
    case HandleCommand(now) => CommandInPieces(s, now);
    case Post(_) =>
  }
}
