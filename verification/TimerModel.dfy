/**
 The timer service as it would be with an unbounded clock: one list of timers in order of true
 expiry time. Module Timers proves that the daemon, with its two lists and its 32-bit tick count
 that wraps, does exactly this. Here the promises of the service are proved over whole runs.
 */
module TimerModel {
  import opened ListSpec
  import opened TwoLists

  const QUEUE_LENGTH: nat := 10   // configTIMER_QUEUE_LENGTH

  const COMMAND_START_DONT_TRACE := 0
  const COMMAND_START := 1
  const COMMAND_RESET := 2
  const COMMAND_STOP := 3
  const COMMAND_CHANGE_PERIOD := 4
  const COMMAND_DELETE := 5
  const COMMAND_START_FROM_ISR := 6
  const COMMAND_RESET_FROM_ISR := 7
  const COMMAND_STOP_FROM_ISR := 8
  const COMMAND_CHANGE_PERIOD_FROM_ISR := 9

  /**
   A queued command. The value is the command time, or the new period. Negative identifiers stand for
   pended function calls, which are not compiled in.
   */
  datatype Message = Message(id: nat, timer: nat, value: nat)

  predicate IsStart(id: nat) {
    id == COMMAND_START || id == COMMAND_START_FROM_ISR || id == COMMAND_RESET
    || id == COMMAND_RESET_FROM_ISR || id == COMMAND_START_DONT_TRACE
  }

  predicate IsStop(id: nat) {
    id == COMMAND_STOP || id == COMMAND_STOP_FROM_ISR
  }

  predicate IsChangePeriod(id: nat) {
    id == COMMAND_CHANGE_PERIOD || id == COMMAND_CHANGE_PERIOD_FROM_ISR
  }

  datatype Timer = Timer(period: nat, autoReload: bool, active: bool, staticallyAllocated: bool)

  /** A callback: which timer, when it was due, and the time the daemon had read. */
  datatype Fire = Fire(timer: nat, due: nat, at: nat)

  /**
   now: the time last read; pending: running timers by true expiry; log: the callbacks so far;
   lost: how often the reload command of each timer has found the queue full.
   */
  datatype Service = Service(now: nat, pending: seq<Entry>, queue: seq<Message>, timers: map<nat, Timer>,
                             log: seq<Fire>, lost: multiset<nat>)

  ghost predicate PositivePeriods(timers: map<nat, Timer>) {
    forall t :: t in timers ==> 0 < timers[t].period < TICK_MODULUS
  }

  // ---------------------------------------------------------------- the service's own commands

  /** Sends the command that restarts an auto-reload timer, without waiting for queue space. */
  function Reload(s: Service, timer: nat, time: nat): Service {
    if |s.queue| < QUEUE_LENGTH
    then s.(queue := s.queue + [Message(COMMAND_START_DONT_TRACE, timer, time)])
    else s.(lost := s.lost + multiset{timer})
  }

  predicate IsAuto(timers: map<nat, Timer>, timer: nat) {
    timer in timers && timers[timer].autoReload
  }

  function CallBack(s: Service, timer: nat, due: nat, at: nat): Service {
    s.(log := s.log + [Fire(timer, due, at)])
  }

  function Pop(s: Service): Service
    requires s.pending != []
  {
    s.(pending := s.pending[1..])
  }

  // ---------------------------------------------------------------- passing a tick rollover

  /** How far the listed timers are in front of the boundary, in total: what draining uses up. */
  ghost function Slack(s: seq<Entry>, boundary: nat): nat {
    if s == [] then 0
    else (if s[0].value < boundary then boundary - s[0].value else 0) + Slack(s[1..], boundary)
  }

  lemma {:induction false} SlackConcat(s: seq<Entry>, t: seq<Entry>, boundary: nat)
    ensures Slack(s + t, boundary) == Slack(s, boundary) + Slack(t, boundary)
  {
    if s == [] {
      assert s + t == t;
    } else {
      SlackConcat(s[1..], t, boundary);
      assert (s + t)[1..] == s[1..] + t;
    }
  }

  lemma SlackInsert(s: seq<Entry>, e: Entry, boundary: nat)
    requires e.value < boundary
    ensures Slack(Insert(s, e), boundary) == Slack(s, boundary) + boundary - e.value
  {
    var p := InsertPosition(s, e.value);
    SlackConcat(s[..p] + [e], s[p..], boundary);
    SlackConcat(s[..p], [e], boundary);
    SlackConcat(s[..p], s[p..], boundary);
    assert s == s[..p] + s[p..];
  }

  /** One expired timer of the ending epoch: call back, then list it again if it expires once more. */
  function DrainOne(s: Service, boundary: nat, at: nat): Service
    requires s.pending != []
  {
    var e := s.pending[0];
    var s1 := CallBack(Pop(s), e.owner, e.value, at);
    if !IsAuto(s.timers, e.owner) then s1
    else
      var due := e.value + s.timers[e.owner].period;
      if due < boundary then s1.(pending := Insert(s1.pending, Entry(e.owner, due)))
      else Reload(s1, e.owner, e.value)
  }

  lemma DrainOneUsesSlack(s: Service, boundary: nat, at: nat)
    requires s.pending != [] && s.pending[0].value < boundary && PositivePeriods(s.timers)
    ensures Slack(DrainOne(s, boundary, at).pending, boundary) < Slack(s.pending, boundary)
    ensures DrainOne(s, boundary, at).timers == s.timers
  {
    var e := s.pending[0];
    if IsAuto(s.timers, e.owner) && e.value + s.timers[e.owner].period < boundary {
      SlackInsert(s.pending[1..], Entry(e.owner, e.value + s.timers[e.owner].period), boundary);
    }
  }

  ghost function Drain(s: Service, boundary: nat, at: nat): Service
    requires PositivePeriods(s.timers)
    decreases Slack(s.pending, boundary)
  {
    if s.pending == [] || boundary <= s.pending[0].value then s
    else
      DrainOneUsesSlack(s, boundary, at);
      Drain(DrainOne(s, boundary, at), boundary, at)
  }

  /** Reading the time. When the tick count has rolled over, what was due before that is dealt with. */
  ghost function Sample(s: Service, now: nat): Service
    requires PositivePeriods(s.timers)
  {
    var s1 := if Epoch(now) == Epoch(s.now) then s else Drain(s, (Epoch(s.now) + 1) * TICK_MODULUS, now);
    s1.(now := now)
  }

  // ---------------------------------------------------------------- one expired timer, one command

  function SetActive(s: Service, timer: nat, active: bool): Service
    requires timer in s.timers
  {
    s.(timers := s.timers[timer := s.timers[timer].(active := active)])
  }

  /** The first timer has expired: list it for its next expiry, or ask for a restart if that is past too. */
  function Expire(s: Service): Service
    requires s.pending != [] && s.pending[0].owner in s.timers
  {
    var e := s.pending[0];
    var due := e.value + s.timers[e.owner].period;
    var s1 :=
      if !s.timers[e.owner].autoReload then SetActive(Pop(s), e.owner, false)
      else if due <= s.now then Reload(Pop(s), e.owner, e.value)
      else Pop(s).(pending := Insert(s.pending[1..], Entry(e.owner, due)));
    CallBack(s1, e.owner, e.value, s.now)
  }

  /** The effect of a command on a timer that has been taken off the list. */
  function Apply(s: Service, m: Message): Service
    requires m.timer in s.timers
  {
    if IsStart(m.id) then
      var s1 := SetActive(s, m.timer, true);
      var due := m.value + s.timers[m.timer].period;
      if s.now < due then s1.(pending := Insert(s.pending, Entry(m.timer, due)))
      else
        var s2 := CallBack(s1, m.timer, due, s.now);
        if s.timers[m.timer].autoReload then Reload(s2, m.timer, due) else s2
    else if IsStop(m.id) then SetActive(s, m.timer, false)
    else if IsChangePeriod(m.id) then
      s.(timers := s.timers[m.timer := s.timers[m.timer].(active := true, period := m.value)],
         pending := Insert(s.pending, Entry(m.timer, s.now + m.value)))
    else if m.id == COMMAND_DELETE then
      if s.timers[m.timer].staticallyAllocated then SetActive(s, m.timer, false)
      else s.(timers := s.timers - {m.timer})
    else s
  }

  /** Takes one command off the queue and carries it out at the given time. */
  ghost function Command(s: Service, now: nat): Service
    requires PositivePeriods(s.timers) && s.queue != [] && s.queue[0].timer in s.timers
  {
    var m := s.queue[0];
    var s1 := s.(queue := s.queue[1..], pending := Without(s.pending, m.timer));
    SampleKeepsTimers(s1, now);
    Apply(Sample(s1, now), m)
  }

  lemma {:induction false} DrainKeepsTimers(s: Service, boundary: nat, at: nat)
    requires PositivePeriods(s.timers)
    ensures Drain(s, boundary, at).timers == s.timers && Drain(s, boundary, at).now == s.now
    decreases Slack(s.pending, boundary)
  {
    if s.pending != [] && s.pending[0].value < boundary {
      DrainOneUsesSlack(s, boundary, at);
      DrainKeepsTimers(DrainOne(s, boundary, at), boundary, at);
    }
  }

  lemma SampleKeepsTimers(s: Service, now: nat)
    requires PositivePeriods(s.timers)
    ensures Sample(s, now).timers == s.timers && Sample(s, now).now == now
  {
    DrainKeepsTimers(s, (Epoch(s.now) + 1) * TICK_MODULUS, now);
  }

  /** One turn of the daemon at the given time: deal with one expired timer, if there is one. */
  ghost function Turn(s: Service, now: nat): Service
    requires PositivePeriods(s.timers)
  {
    var s1 := Sample(s, now);
    if Epoch(now) != Epoch(s.now) || s.pending == [] || now < s.pending[0].value || s.pending[0].owner !in s.timers
    then s1
    else Expire(s1)
  }
}
