/** The load generator's shared counters: every client runs on its own strand, and the clients
    interleave at the granularity of single atomic operations on the counters of `LoadEvidence`
    and `LoadController`. A run is any sequence of such steps, spurious failures of the weak
    compare-exchange included. */
module LoadRun {

  datatype Outcome = Completed | Rejected | Failed | Cancelled

  /** Where one client stands, named after the operation it performs next. */
  datatype Pc =
    | Connecting
    | LoadPeak(mine: int)                 // active_clients_ was raised to `mine`
    | RaisePeak(mine: int, seen: int)     // `seen` is the last value read from the peak
    | CountAuthenticated
    | StartMeasurement                    // this client's count reached the target
    | Running
    | LeaveActive(authed: bool, outcome: Outcome)     // this client's finished_ latch is set
    | CountTerminal(authed: bool, outcome: Outcome)
    // try_stop after `loads` loads, which gave `completed` first and `sum` in all
    | TryStop(authed: bool, outcome: Outcome, loads: nat, completed: int, sum: int)
    | StopOnce(authed: bool, outcome: Outcome)
    | Halted(authed: bool, outcome: Outcome)

  /** The shared atomics, plus three facts of the run: how many calls won the start of the
      measurement, whether `try_stop` has marked the global completion, and how many times it has
      stopped the event loop. */
  datatype Shared = Shared(
    active: int, peak: int, authenticated: int, started: bool, wins: nat,
    completed: int, rejected: int, failed: int, cancelled: int,
    globalCompletion: bool, marked: bool, finished: bool, stops: nat)
  {
    function Counter(o: Outcome): int {
      match o
      case Completed => completed
      case Rejected => rejected
      case Failed => failed
      case Cancelled => cancelled
    }

    /** The first `loads` terminal counters, in the order `try_stop` reads them. */
    function Partial(loads: nat): int {
      (if loads >= 1 then completed else 0) + (if loads >= 2 then rejected else 0) +
      (if loads >= 3 then failed else 0) + (if loads >= 4 then cancelled else 0)
    }

    function Total(): int { completed + rejected + failed + cancelled }

    function Count(o: Outcome): Shared {
      match o
      case Completed => this.(completed := completed + 1)
      case Rejected => this.(rejected := rejected + 1)
      case Failed => this.(failed := failed + 1)
      case Cancelled => this.(cancelled := cancelled + 1)
    }
  }

  /** `n` clients, which is also the target of the evidence. */
  datatype Config = Config(n: nat, battle: bool)

  datatype State = State(pc: seq<Pc>, m: Shared)

  /** One scheduler decision: client `who` takes its next step. `Login` and `Finish` are the two
      events a client can receive; a weak compare-exchange may also fail without reason. */
  datatype Choice = Login | Finish(outcome: Outcome) | Proceed | FailSpuriously

  /** `ForceStop` is the controller's environment: a ramp timeout, the end of the duration or the
      stall watchdog marks the global completion without looking at the counters. */
  datatype Action = Action(who: nat, choice: Choice) | ForceStop

  const ZERO := Shared(0, 0, 0, false, 0, 0, 0, 0, 0, false, false, false, 0)

  function Init(cfg: Config): State {
    State(seq(cfg.n, _ => Connecting), ZERO)
  }

  /** on_authenticated and update_peak, one atomic operation at a time. */
  function LoginStep(cfg: Config, p: Pc, m: Shared, spurious: bool): (Pc, Shared)
    requires p.LoadPeak? || p.RaisePeak? || p.CountAuthenticated? || p.StartMeasurement?
  {
    match p
    case LoadPeak(mine) => (RaisePeak(mine, m.peak), m)
    case RaisePeak(mine, seen) =>
      if mine <= seen then (CountAuthenticated, m)
      else if m.peak == seen && !spurious then (CountAuthenticated, m.(peak := mine))
      else (RaisePeak(mine, m.peak), m)
    case CountAuthenticated =>
      (if m.authenticated + 1 == cfg.n then StartMeasurement else Running,
       m.(authenticated := m.authenticated + 1))
    case StartMeasurement =>
      (Running, if m.started then m else m.(started := true, wins := m.wins + 1))
  }

  /** on_terminal, the terminal counter and try_stop, one atomic operation at a time. */
  function TerminalStep(cfg: Config, p: Pc, m: Shared): (Pc, Shared)
    requires Terminal(p)
  {
    match p
    case LeaveActive(authed, o) =>
      (CountTerminal(authed, o), if authed then m.(active := m.active - 1) else m)
    case CountTerminal(authed, o) => (TryStop(authed, o, 0, 0, 0), m.Count(o))
    case TryStop(authed, o, loads, completed, sum) =>
      if loads < 4 then
        (TryStop(authed, o, loads + 1, if loads == 0 then m.completed else completed,
                 sum + m.Partial(loads + 1) - m.Partial(loads)), m)
      else if sum >= cfg.n then
        (StopOnce(authed, o),
         if cfg.battle && cfg.n > 0 && completed == cfg.n then m.(globalCompletion := true, marked := true) else m)
      else (Halted(authed, o), m)
    case StopOnce(authed, o) =>
      (Halted(authed, o), if m.finished then m else m.(finished := true, stops := m.stops + 1))
    case Halted(_, _) => (p, m)
  }

  function ClientStep(cfg: Config, p: Pc, m: Shared, c: Choice): (Pc, Shared) {
    if p.Connecting? then
      if c.Login? then (LoadPeak(m.active + 1), m.(active := m.active + 1))
      else if c.Finish? then (LeaveActive(false, c.outcome), m)
      else (p, m)
    else if p.Running? then
      if c.Finish? then (LeaveActive(true, c.outcome), m) else (p, m)
    else if Terminal(p) then TerminalStep(cfg, p, m)
    else LoginStep(cfg, p, m, c.FailSpuriously?)
  }

  function Step(cfg: Config, s: State, a: Action): (s': State)
    ensures |s'.pc| == |s.pc|
  {
    if a.ForceStop? then s.(m := s.m.(globalCompletion := true))
    else if a.who >= |s.pc| then s
    else
    var (p, m) := ClientStep(cfg, s.pc[a.who], s.m, a.choice);
    State(s.pc[a.who := p], m)
  }

  /** The action is a step of one of the clients. */
  predicate Moves(s: State, a: Action) { a.Action? && a.who < |s.pc| }

  /** All states of a run, in order; the first is the initial state. */
  ghost function Trace(cfg: Config, actions: seq<Action>): (t: seq<State>)
    ensures |t| == |actions| + 1
    ensures forall k :: 0 <= k < |t| ==> |t[k].pc| == cfg.n
  {
    if actions == [] then [Init(cfg)]
    else
      var before := Trace(cfg, actions[..|actions| - 1]);
      before + [Step(cfg, before[|before| - 1], actions[|actions| - 1])]
  }

  ghost function Last(cfg: Config, actions: seq<Action>): State {
    Trace(cfg, actions)[|actions|]
  }

  // ---- Which clients a counter counts --------------------------------------------------------

  /** Authenticated, and its termination not yet reported to the evidence. */
  predicate InLoad(p: Pc) {
    p.LoadPeak? || p.RaisePeak? || p.CountAuthenticated? || p.StartMeasurement? || p.Running? ||
    (p.LeaveActive? && p.authed)
  }

  predicate Terminal(p: Pc) {
    p.LeaveActive? || p.CountTerminal? || p.TryStop? || p.StopOnce? || p.Halted?
  }

  predicate Authenticated(p: Pc) {
    p.StartMeasurement? || p.Running? || (Terminal(p) && p.authed)
  }

  predicate Reported(p: Pc) {
    p.TryStop? || p.StopOnce? || p.Halted?
  }

  predicate ReportedAs(p: Pc, o: Outcome) { Reported(p) && p.outcome == o }

  predicate Starting(p: Pc) { p.StartMeasurement? }

  ghost function Count(pcs: seq<Pc>, holds: Pc -> bool): (c: nat)
    ensures c <= |pcs|
  {
    if pcs == [] then 0
    else Count(pcs[..|pcs| - 1], holds) + if holds(pcs[|pcs| - 1]) then 1 else 0
  }

  lemma {:induction false} CountUpdate(pcs: seq<Pc>, holds: Pc -> bool, i: nat, p: Pc)
    requires i < |pcs|
    ensures Count(pcs[i := p], holds) ==
            Count(pcs, holds) - (if holds(pcs[i]) then 1 else 0) + (if holds(p) then 1 else 0)
  {
    var last := |pcs| - 1;
    if i == last {
      assert pcs[i := p][..last] == pcs[..last];
    } else {
      CountUpdate(pcs[..last], holds, i, p);
      assert pcs[i := p][..last] == pcs[..last][i := p];
    }
  }

  lemma {:induction false} CountAll(pcs: seq<Pc>, holds: Pc -> bool)
    ensures Count(pcs, holds) == |pcs| <==> forall i :: 0 <= i < |pcs| ==> holds(pcs[i])
  {
    if pcs != [] {
      CountAll(pcs[..|pcs| - 1], holds);
      assert forall i :: 0 <= i < |pcs| - 1 ==> pcs[..|pcs| - 1][i] == pcs[i];
    }
  }

  lemma {:induction false} CountNone(pcs: seq<Pc>, holds: Pc -> bool)
    ensures Count(pcs, holds) == 0 <==> forall i :: 0 <= i < |pcs| ==> !holds(pcs[i])
  {
    if pcs != [] {
      CountNone(pcs[..|pcs| - 1], holds);
      assert forall i :: 0 <= i < |pcs| - 1 ==> pcs[..|pcs| - 1][i] == pcs[i];
    }
  }

  // ---- What the counters count ---------------------------------------------------------------

  datatype Tally = TActive | TAuthenticated | TReported | TOutcome(o: Outcome)

  function Value(m: Shared, t: Tally): int {
    match t
    case TActive => m.active
    case TAuthenticated => m.authenticated
    case TReported => m.Total()
    case TOutcome(o) => m.Counter(o)
  }

  predicate Counted(p: Pc, t: Tally) {
    match t
    case TActive => InLoad(p)
    case TAuthenticated => Authenticated(p)
    case TReported => Reported(p)
    case TOutcome(o) => ReportedAs(p, o)
  }

  function Test(t: Tally): Pc -> bool { p => Counted(p, t) }

  /** Every counter is exactly the number of clients in the situation it stands for. */
  ghost predicate Counts(s: State) {
    forall t :: Value(s.m, t) == Count(s.pc, Test(t))
  }

  function Bit(b: bool): int { if b then 1 else 0 }

  lemma {:induction false} CountsLogin(cfg: Config, p: Pc, m: Shared, spurious: bool, t: Tally)
    requires p.LoadPeak? || p.RaisePeak? || p.CountAuthenticated? || p.StartMeasurement?
    ensures var (p', m') := LoginStep(cfg, p, m, spurious);
            Value(m', t) - Value(m, t) == Bit(Counted(p', t)) - Bit(Counted(p, t))
  {
  }

  lemma {:induction false} CountsTerminal(cfg: Config, p: Pc, m: Shared, t: Tally)
    requires Terminal(p)
    ensures var (p', m') := TerminalStep(cfg, p, m);
            Value(m', t) - Value(m, t) == Bit(Counted(p', t)) - Bit(Counted(p, t))
  {
    if p.CountTerminal? {
      CountOne(m, p.outcome);
    }
  }

  lemma {:induction false} CountOne(m: Shared, o: Outcome)
    ensures m.Count(o).Total() == m.Total() + 1
    ensures forall q :: m.Count(o).Counter(q) == m.Counter(q) + Bit(q == o)
  {
  }

  lemma {:induction false} CountsStep(cfg: Config, s: State, a: Action)
    requires Counts(s)
    ensures Counts(Step(cfg, s, a))
  {
    if Moves(s, a) {
      var s', p := Step(cfg, s, a), s.pc[a.who];
      forall t ensures Value(s'.m, t) == Count(s'.pc, Test(t)) {
        if Terminal(p) {
          CountsTerminal(cfg, p, s.m, t);
        } else if !p.Connecting? && !p.Running? {
          CountsLogin(cfg, p, s.m, a.choice.FailSpuriously?, t);
        }
        CountUpdate(s.pc, Test(t), a.who, s'.pc[a.who]);
      }
    }
  }

  /** A client that is finishing leaves login, peak and start alone. */
  lemma {:induction false} TerminalOthers(cfg: Config, p: Pc, m: Shared)
    requires Terminal(p)
    ensures var (p', m') := TerminalStep(cfg, p, m);
      && Terminal(p') && p'.authed == p.authed && m'.active <= m.active
      && m'.peak == m.peak && m'.authenticated == m.authenticated && m'.started == m.started && m'.wins == m.wins
  {
  }

  // ---- The peak ------------------------------------------------------------------------------

  predicate Raising(p: Pc) { p.LoadPeak? || p.RaisePeak? }

  predicate PeakLocal(p: Pc, peak: int, max: int) {
    && (Raising(p) ==> p.mine <= max)
    && (p.RaisePeak? ==> p.seen <= peak)
  }

  /** `max` is the largest value `active` has had. Either the peak has reached it, or the client
      that produced it has still to raise the peak. */
  ghost predicate PeakBehind(s: State, max: int) {
    && s.m.active <= max && s.m.peak <= max
    && (forall i :: 0 <= i < |s.pc| ==> PeakLocal(s.pc[i], s.m.peak, max))
    && (s.m.peak == max || exists i :: 0 <= i < |s.pc| && Raising(s.pc[i]) && s.pc[i].mine == max)
  }

  function Max(a: int, b: int): int { if a >= b then a else b }

  lemma {:induction false} PeakClient(cfg: Config, p: Pc, m: Shared, c: Choice, max: int)
    requires PeakLocal(p, m.peak, max) && m.peak <= max && m.active <= max
    ensures var (p', m') := ClientStep(cfg, p, m, c);
      var max' := Max(max, m'.active);
      && m.peak <= m'.peak <= max'
      && PeakLocal(p', m'.peak, max')
      && (max' > max ==> Raising(p') && p'.mine == max')
      && (Raising(p) && p.mine == max ==> m'.peak == max || (Raising(p') && p'.mine == max))
  {
    if Terminal(p) {
      TerminalOthers(cfg, p, m);
    }
  }

  lemma {:induction false} PeakStep(cfg: Config, s: State, a: Action, max: int)
    requires PeakBehind(s, max)
    ensures s.m.peak <= Step(cfg, s, a).m.peak
    ensures PeakBehind(Step(cfg, s, a), Max(max, Step(cfg, s, a).m.active))
  {
    if Moves(s, a) {
      var s' := Step(cfg, s, a);
      var max' := Max(max, s'.m.active);
      PeakClient(cfg, s.pc[a.who], s.m, a.choice, max);
      assert forall i :: 0 <= i < |s'.pc| && i != a.who ==> s'.pc[i] == s.pc[i];
      if max' > max {
        assert Raising(s'.pc[a.who]) && s'.pc[a.who].mine == max';
      } else if s.m.peak != max {
        var i :| 0 <= i < |s.pc| && Raising(s.pc[i]) && s.pc[i].mine == max;
        assert s'.m.peak == max || (Raising(s'.pc[i]) && s'.pc[i].mine == max);
      }
    }
  }

  // ---- The start of the measurement ----------------------------------------------------------

  predicate Reached(cfg: Config, m: Shared) { cfg.n > 0 && m.authenticated >= cfg.n }

  ghost predicate OneStart(cfg: Config, s: State) {
    && Count(s.pc, Starting) + s.m.wins == Bit(Reached(cfg, s.m))
    && s.m.wins == Bit(s.m.started)
  }

  lemma {:induction false} OneStartClient(cfg: Config, p: Pc, m: Shared, c: Choice)
    requires cfg.n > 0 && m.wins == Bit(m.started) && (Starting(p) ==> m.wins == 0)
    ensures var (p', m') := ClientStep(cfg, p, m, c);
      && m'.wins == Bit(m'.started)
      && Bit(Starting(p')) - Bit(Starting(p)) + m'.wins - m.wins == Bit(Reached(cfg, m')) - Bit(Reached(cfg, m))
  {
    if Terminal(p) {
      TerminalOthers(cfg, p, m);
    }
  }

  lemma {:induction false} OneStartStep(cfg: Config, s: State, a: Action)
    requires OneStart(cfg, s) && |s.pc| == cfg.n
    ensures OneStart(cfg, Step(cfg, s, a))
  {
    if Moves(s, a) {
      CountNone(s.pc, Starting);
      OneStartClient(cfg, s.pc[a.who], s.m, a.choice);
      CountUpdate(s.pc, Starting, a.who, Step(cfg, s, a).pc[a.who]);
    }
  }

  // ---- Stopping ------------------------------------------------------------------------------

  /** A client in try_stop has read no more than what the counters now show. */
  predicate LoadsLocal(cfg: Config, p: Pc, m: Shared) {
    && (p.TryStop? ==> p.loads <= 4 && p.completed <= m.completed && p.sum <= m.Partial(p.loads))
    && (p.StopOnce? ==> m.Total() >= cfg.n)
  }

  predicate Monotone(m: Shared, m': Shared) {
    && m.completed <= m'.completed && m.rejected <= m'.rejected
    && m.failed <= m'.failed && m.cancelled <= m'.cancelled
  }

  ghost predicate StopsWhenDone(cfg: Config, s: State) {
    && 0 <= s.m.completed
    && (forall i :: 0 <= i < |s.pc| ==> LoadsLocal(cfg, s.pc[i], s.m))
    && (s.m.finished ==> s.m.Total() >= cfg.n)
    && (s.m.marked ==> cfg.battle && s.m.globalCompletion && s.m.completed >= cfg.n)
    && s.m.stops == Bit(s.m.finished)
  }

  lemma {:induction false} StopTerminal(cfg: Config, p: Pc, m: Shared)
    requires Terminal(p) && LoadsLocal(cfg, p, m) && 0 <= m.completed && m.stops == Bit(m.finished)
    ensures var (p', m') := TerminalStep(cfg, p, m);
      && Monotone(m, m') && LoadsLocal(cfg, p', m')
      && m'.stops == Bit(m'.finished)
      && (m'.finished ==> m.finished || m'.Total() >= cfg.n)
      && (m.globalCompletion ==> m'.globalCompletion)
      && (m'.marked ==> m.marked || (cfg.battle && m'.globalCompletion && m'.completed >= cfg.n))
  {
  }

  /** Only try_stop and the terminal counters touch the counters that try_stop reads. */
  lemma {:induction false} StopOthers(cfg: Config, p: Pc, m: Shared, c: Choice)
    requires !Terminal(p)
    ensures var (p', m') := ClientStep(cfg, p, m, c);
      && !p'.TryStop? && !p'.StopOnce?
      && m' == m.(active := m'.active, peak := m'.peak, authenticated := m'.authenticated,
                  started := m'.started, wins := m'.wins)
  {
  }

  lemma {:induction false} StopStep(cfg: Config, s: State, a: Action)
    requires StopsWhenDone(cfg, s)
    ensures StopsWhenDone(cfg, Step(cfg, s, a))
    ensures Monotone(s.m, Step(cfg, s, a).m)
  {
    if Moves(s, a) {
      if Terminal(s.pc[a.who]) {
        StopTerminal(cfg, s.pc[a.who], s.m);
      } else {
        StopOthers(cfg, s.pc[a.who], s.m, a.choice);
      }
    }
  }

  // ---- Every run -----------------------------------------------------------------------------

  /** The largest value `active` has had in a run. */
  ghost function MaxActive(t: seq<State>): int
    requires t != []
  {
    if |t| == 1 then t[0].m.active else Max(MaxActive(t[..|t| - 1]), t[|t| - 1].m.active)
  }

  lemma {:induction false} MaxActiveAttained(t: seq<State>)
    requires t != []
    ensures exists k :: 0 <= k < |t| && t[k].m.active == MaxActive(t)
    ensures forall k :: 0 <= k < |t| ==> t[k].m.active <= MaxActive(t)
  {
    assert |t| == 1 ==> t[0].m.active == MaxActive(t);
    if |t| > 1 {
      var u := t[..|t| - 1];
      MaxActiveAttained(u);
      var k :| 0 <= k < |u| && u[k].m.active == MaxActive(u);
      assert t[k].m.active == MaxActive(t) || t[|t| - 1].m.active == MaxActive(t);
      forall j | 0 <= j < |t| ensures t[j].m.active <= MaxActive(t) {
        if j < |u| { assert t[j] == u[j]; }
      }
    }
  }

  lemma {:induction false} CountInit(n: nat, holds: Pc -> bool)
    requires !holds(Connecting)
    ensures Count(seq(n, _ => Connecting), holds) == 0
  {
    CountNone(seq(n, _ => Connecting), holds);
  }

  lemma {:induction false} InitHolds(cfg: Config)
    ensures Counts(Init(cfg)) && PeakBehind(Init(cfg), 0) && OneStart(cfg, Init(cfg)) && StopsWhenDone(cfg, Init(cfg))
  {
    forall t ensures Value(ZERO, t) == Count(Init(cfg).pc, Test(t)) {
      CountInit(cfg.n, Test(t));
    }
    CountInit(cfg.n, Starting);
  }

  /** The four invariants hold at the end of every run, hence of every prefix of a run. */
  lemma {:induction false} RunInvariants(cfg: Config, actions: seq<Action>)
    ensures Counts(Last(cfg, actions))
    ensures PeakBehind(Last(cfg, actions), MaxActive(Trace(cfg, actions)))
    ensures OneStart(cfg, Last(cfg, actions))
    ensures StopsWhenDone(cfg, Last(cfg, actions))
  {
    if actions == [] {
      InitHolds(cfg);
    } else {
      var before, a := actions[..|actions| - 1], actions[|actions| - 1];
      RunInvariants(cfg, before);
      var s := Last(cfg, before);
      CountsStep(cfg, s, a);
      PeakStep(cfg, s, a, MaxActive(Trace(cfg, before)));
      OneStartStep(cfg, s, a);
      StopStep(cfg, s, a);
      assert Trace(cfg, actions)[..|actions|] == Trace(cfg, before);
    }
  }

  lemma {:induction false} TracePrefix(cfg: Config, actions: seq<Action>, k: nat)
    requires k <= |actions|
    ensures Trace(cfg, actions)[k] == Last(cfg, actions[..k])
  {
    if k == |actions| {
      assert actions[..k] == actions;
    } else {
      TracePrefix(cfg, actions[..|actions| - 1], k);
      assert actions[..|actions| - 1][..k] == actions[..k];
    }
  }

  /** In every state of every run each counter is the number of clients it stands for. */
  lemma {:induction false} TallyExact(cfg: Config, actions: seq<Action>, k: nat, t: Tally)
    requires k <= |actions|
    ensures var s := Trace(cfg, actions)[k];
      Value(s.m, t) == Count(s.pc, Test(t)) && 0 <= Value(s.m, t) <= cfg.n
  {
    TracePrefix(cfg, actions, k);
    RunInvariants(cfg, actions[..k]);
  }

  lemma {:induction false} ActiveExact(cfg: Config, actions: seq<Action>, k: nat)
    requires k <= |actions|
    ensures var s := Trace(cfg, actions)[k];
      s.m.active == Count(s.pc, InLoad) && 0 <= s.m.active <= cfg.n
  {
    TallyExact(cfg, actions, k, TActive);
    SameCount(Trace(cfg, actions)[k].pc, InLoad, Test(TActive));
  }

  lemma {:induction false} ReportedExact(cfg: Config, actions: seq<Action>, k: nat)
    requires k <= |actions|
    ensures var s := Trace(cfg, actions)[k];
      s.m.Total() == Count(s.pc, Reported) && 0 <= s.m.Total() <= cfg.n
  {
    TallyExact(cfg, actions, k, TReported);
    SameCount(Trace(cfg, actions)[k].pc, Reported, Test(TReported));
  }

  lemma {:induction false} OutcomeNatural(cfg: Config, actions: seq<Action>, k: nat, o: Outcome)
    requires k <= |actions|
    ensures 0 <= Trace(cfg, actions)[k].m.Counter(o)
  {
    TallyExact(cfg, actions, k, TOutcome(o));
  }

  lemma {:induction false} NaturalParts(m: Shared)
    requires forall o :: 0 <= m.Counter(o)
    ensures forall o :: m.Counter(o) <= m.Total()
  {
    assert 0 <= m.Counter(Completed) && 0 <= m.Counter(Rejected) && 0 <= m.Counter(Failed) && 0 <= m.Counter(Cancelled);
  }

  /** In every state of every run the active count is the number of clients under load, so it is
      never negative, and the terminal counters sum to the clients that have reported. */
  lemma {:induction false} CountersExact(cfg: Config, actions: seq<Action>, k: nat)
    requires k <= |actions|
    ensures var s := Trace(cfg, actions)[k];
      && 0 <= s.m.active <= cfg.n && 0 <= s.m.authenticated <= cfg.n
      && s.m.active == Count(s.pc, InLoad)
      && s.m.completed + s.m.rejected + s.m.failed + s.m.cancelled == Count(s.pc, Reported) <= cfg.n
      && forall o :: 0 <= s.m.Counter(o) <= s.m.Total()
  {
    var m := Trace(cfg, actions)[k].m;
    ActiveExact(cfg, actions, k);
    ReportedExact(cfg, actions, k);
    assert 0 <= m.authenticated <= cfg.n by { TallyExact(cfg, actions, k, TAuthenticated); }
    forall o ensures 0 <= m.Counter(o) { OutcomeNatural(cfg, actions, k, o); }
    NaturalParts(m);
  }

  lemma {:induction false} SameCount(pcs: seq<Pc>, f: Pc -> bool, g: Pc -> bool)
    requires forall p :: f(p) == g(p)
    ensures Count(pcs, f) == Count(pcs, g)
  {
    if pcs != [] {
      SameCount(pcs[..|pcs| - 1], f, g);
    }
  }

  function EndedAs(o: Outcome): Pc -> bool {
    p => Reported(p) && p.outcome == o
  }

  lemma {:induction false} OutcomeCounted(cfg: Config, actions: seq<Action>, k: nat, o: Outcome)
    requires k <= |actions|
    ensures Trace(cfg, actions)[k].m.Counter(o) == Count(Trace(cfg, actions)[k].pc, EndedAs(o))
  {
    TallyExact(cfg, actions, k, TOutcome(o));
    SameCount(Trace(cfg, actions)[k].pc, EndedAs(o), Test(TOutcome(o)));
  }

  /** Each of the four terminal counters is the number of clients that have reported that outcome. */
  lemma {:induction false} OutcomesExact(cfg: Config, actions: seq<Action>, k: nat)
    requires k <= |actions|
    ensures var s := Trace(cfg, actions)[k];
      && s.m.completed == Count(s.pc, EndedAs(Completed)) && s.m.rejected == Count(s.pc, EndedAs(Rejected))
      && s.m.failed == Count(s.pc, EndedAs(Failed)) && s.m.cancelled == Count(s.pc, EndedAs(Cancelled))
  {
    OutcomeCounted(cfg, actions, k, Completed);
    OutcomeCounted(cfg, actions, k, Rejected);
    OutcomeCounted(cfg, actions, k, Failed);
    OutcomeCounted(cfg, actions, k, Cancelled);
  }

  ghost predicate Occurs(actions: seq<Action>, a: Action) {
    exists k :: 0 <= k < |actions| && actions[k] == a
  }

  lemma {:induction false} OccursLater(before: seq<Action>, last: Action, a: Action)
    requires Occurs(before, a) || last == a
    ensures Occurs(before + [last], a)
  {
    var all := before + [last];
    assert all[|before|] == last && forall k :: 0 <= k < |before| ==> all[k] == before[k];
  }

  /** An outcome is one that the client was finished with, and only a client that logged in counts as
      authenticated or is under load. */
  lemma {:induction false} HistoryExplains(cfg: Config, actions: seq<Action>, i: nat)
    requires i < cfg.n
    ensures var p := Last(cfg, actions).pc[i];
      && (Terminal(p) ==> Occurs(actions, Action(i, Finish(p.outcome))))
      && (Authenticated(p) || InLoad(p) ==> Occurs(actions, Action(i, Login)))
  {
    if actions != [] {
      var before, last := actions[..|actions| - 1], actions[|actions| - 1];
      assert actions == before + [last];
      HistoryExplains(cfg, before, i);
      var p, p' := Last(cfg, before).pc[i], Last(cfg, actions).pc[i];
      if Terminal(p) {
        OccursLater(before, last, Action(i, Finish(p.outcome)));
      } else if Terminal(p') {
        OccursLater(before, last, Action(i, Finish(p'.outcome)));
      }
      if Authenticated(p) || InLoad(p) || last == Action(i, Login) {
        OccursLater(before, last, Action(i, Login));
      }
    }
  }

  /** The recorded peak never decreases. */
  lemma {:induction false} PeakMonotone(cfg: Config, actions: seq<Action>, j: nat, k: nat)
    requires j <= k <= |actions|
    ensures Trace(cfg, actions)[j].m.peak <= Trace(cfg, actions)[k].m.peak
    decreases k
  {
    if j < k {
      PeakMonotone(cfg, actions, j, k - 1);
      TracePrefix(cfg, actions, k - 1);
      TracePrefix(cfg, actions, k);
      RunInvariants(cfg, actions[..k - 1]);
      assert actions[..k][..k - 1] == actions[..k - 1];
      PeakStep(cfg, Last(cfg, actions[..k - 1]), actions[k - 1], MaxActive(Trace(cfg, actions[..k - 1])));
    }
  }

  /** Whenever no client is between raising `active` and raising the peak, the recorded peak is the
      largest value `active` has had. */
  lemma {:induction false} PeakIsMaximum(cfg: Config, actions: seq<Action>)
    requires forall i :: 0 <= i < cfg.n ==> !Raising(Last(cfg, actions).pc[i])
    ensures Last(cfg, actions).m.peak == MaxActive(Trace(cfg, actions))
  {
    RunInvariants(cfg, actions);
  }

  /** The measurement is started at most once, and whenever no caller is still on its way to start
      it, it has been started exactly when the authenticated count has reached a positive target. */
  lemma {:induction false} StartWonOnce(cfg: Config, actions: seq<Action>)
    ensures var s := Last(cfg, actions);
      && s.m.wins <= 1 && (s.m.started <==> s.m.wins == 1)
      && (s.m.started ==> Reached(cfg, s.m))
      && ((forall i :: 0 <= i < cfg.n ==> !Starting(s.pc[i])) ==>
            (s.m.started <==> cfg.n > 0 && s.m.authenticated == cfg.n))
  {
    RunInvariants(cfg, actions);
    TallyExact(cfg, actions, |actions|, TAuthenticated);
    CountNone(Last(cfg, actions).pc, Starting);
  }

  /** A caller that reaches the compare-exchange on the start flag always wins it. */
  lemma {:induction false} StarterWins(cfg: Config, actions: seq<Action>, i: nat, c: Choice)
    requires i < cfg.n && Last(cfg, actions).pc[i].StartMeasurement?
    ensures Step(cfg, Last(cfg, actions), Action(i, c)).m.wins == 1
  {
    RunInvariants(cfg, actions);
    CountNone(Last(cfg, actions).pc, Starting);
  }

  ghost predicate AllInLoad(s: State) {
    forall i :: 0 <= i < |s.pc| ==> InLoad(s.pc[i])
  }

  /** Evidence that the peak equals the target proves full load: at one instant of the run every
      client was authenticated and none had reported its termination. */
  lemma {:induction false} FullLoadInstant(cfg: Config, actions: seq<Action>)
    requires Last(cfg, actions).m.peak == cfg.n
    ensures exists k :: 0 <= k <= |actions| && AllInLoad(Trace(cfg, actions)[k])
  {
    RunInvariants(cfg, actions);
    var t := Trace(cfg, actions);
    MaxActiveAttained(t);
    var k :| 0 <= k < |t| && t[k].m.active == MaxActive(t);
    ActiveExact(cfg, actions, k);
    CountAll(t[k].pc, InLoad);
  }

  /** Conversely, once every client has been under load at one instant, the settled peak says so. */
  lemma {:induction false} FullLoadRecorded(cfg: Config, actions: seq<Action>, k: nat)
    requires k <= |actions|
    requires AllInLoad(Trace(cfg, actions)[k])
    requires forall i :: 0 <= i < cfg.n ==> !Raising(Last(cfg, actions).pc[i])
    ensures Last(cfg, actions).m.peak == cfg.n
  {
    var t := Trace(cfg, actions);
    PeakIsMaximum(cfg, actions);
    MaxActiveAttained(t);
    CountAll(t[k].pc, InLoad);
    ActiveExact(cfg, actions, k);
    var j :| 0 <= j < |t| && t[j].m.active == MaxActive(t);
    ActiveExact(cfg, actions, j);
  }

  lemma {:induction false} AllCompleted(cfg: Config, actions: seq<Action>)
    ensures Last(cfg, actions).m.completed <= cfg.n
    ensures Last(cfg, actions).m.completed == cfg.n <==>
            forall i :: 0 <= i < cfg.n ==> ReportedAs(Last(cfg, actions).pc[i], Completed)
  {
    var s := Last(cfg, actions);
    TallyExact(cfg, actions, |actions|, TOutcome(Completed));
    CountAll(s.pc, Test(TOutcome(Completed)));
    assert forall p :: Test(TOutcome(Completed))(p) == ReportedAs(p, Completed);
  }

  /** try_stop reads four counters one at a time, yet acts only when every client has reported, and it
      marks the global completion only when every client has completed. */
  lemma {:induction false} StopsOnlyWhenAllReported(cfg: Config, actions: seq<Action>)
    ensures var s := Last(cfg, actions);
      && s.m.stops <= 1 && (s.m.finished <==> s.m.stops == 1)
      && (s.m.finished || (exists i :: 0 <= i < cfg.n && s.pc[i].StopOnce?) ==>
            forall i :: 0 <= i < cfg.n ==> Reported(s.pc[i]))
      && (s.m.marked ==> s.m.globalCompletion && forall i :: 0 <= i < cfg.n ==> ReportedAs(s.pc[i], Completed))
  {
    RunInvariants(cfg, actions);
    ReportedExact(cfg, actions, |actions|);
    var s := Last(cfg, actions);
    CountAll(s.pc, Reported);
    AllCompleted(cfg, actions);
  }

  /** Client `i` is the last to have reported and will stop the loop, or has, or was overtaken. */
  predicate WillStop(cfg: Config, s: State, i: nat)
    requires i < |s.pc|
  {
    && s.m.Total() == cfg.n
    && match s.pc[i]
       case TryStop(_, _, loads, completed, sum) =>
         loads <= 4 && sum == s.m.Partial(loads) && (loads >= 1 ==> completed == s.m.completed)
       case StopOnce(_, _) => MarkedIfCompleted(cfg, s.m)
       case Halted(_, _) => s.m.finished && MarkedIfCompleted(cfg, s.m)
       case _ => false
  }

  predicate MarkedIfCompleted(cfg: Config, m: Shared) {
    cfg.battle && cfg.n > 0 && m.completed == cfg.n ==> m.marked
  }

  lemma {:induction false} TotalChanges(cfg: Config, s: State, a: Action)
    ensures Step(cfg, s, a).m.Total() == s.m.Total() ||
            (Moves(s, a) && s.pc[a.who].CountTerminal? && Step(cfg, s, a).m.Total() == s.m.Total() + 1)
  {
    if Moves(s, a) && !Terminal(s.pc[a.who]) {
      StopOthers(cfg, s.pc[a.who], s.m, a.choice);
    }
  }

  lemma {:induction false} LastReporterBegins(cfg: Config, s: State, a: Action)
    requires Moves(s, a) && s.pc[a.who].CountTerminal? && s.m.Total() + 1 == cfg.n
    ensures WillStop(cfg, Step(cfg, s, a), a.who)
  {
  }

  lemma {:induction false} LastReporterContinues(cfg: Config, s: State, a: Action, i: nat)
    requires Counts(s) && |s.pc| == cfg.n && i < cfg.n && WillStop(cfg, s, i)
    ensures WillStop(cfg, Step(cfg, s, a), i)
  {
    if Moves(s, a) {
      SameCount(s.pc, Reported, Test(TReported));
      assert s.m.Total() == Value(s.m, TReported) == Count(s.pc, Test(TReported));
      CountAll(s.pc, Reported);
      assert Reported(s.pc[a.who]);
    }
  }

  /** Some client is on its way to stop the loop as soon as all of them have reported. */
  lemma {:induction false} StopperExists(cfg: Config, actions: seq<Action>)
    requires cfg.n > 0 && Last(cfg, actions).m.Total() == cfg.n
    ensures exists i :: 0 <= i < cfg.n && WillStop(cfg, Last(cfg, actions), i)
  {
    assert actions != [];
    var before, a := actions[..|actions| - 1], actions[|actions| - 1];
    var s := Last(cfg, before);
    RunInvariants(cfg, before);
    if s.m.Total() == cfg.n {
      StopperExists(cfg, before);
      var i :| 0 <= i < cfg.n && WillStop(cfg, s, i);
      LastReporterContinues(cfg, s, a, i);
    } else {
      TotalChanges(cfg, s, a);
      LastReporterBegins(cfg, s, a);
    }
  }

  /** When every client has run to its end, try_stop has stopped the loop exactly once, and it has
      marked the global completion exactly when it is a battle that all clients completed. */
  lemma {:induction false} StoppedExactlyOnce(cfg: Config, actions: seq<Action>)
    requires cfg.n > 0
    requires forall i :: 0 <= i < cfg.n ==> Last(cfg, actions).pc[i].Halted?
    ensures Last(cfg, actions).m.finished && Last(cfg, actions).m.stops == 1
    ensures Last(cfg, actions).m.marked <==>
            cfg.battle && forall i :: 0 <= i < cfg.n ==> ReportedAs(Last(cfg, actions).pc[i], Completed)
  {
    var s := Last(cfg, actions);
    ReportedExact(cfg, actions, |actions|);
    CountAll(s.pc, Reported);
    StopperExists(cfg, actions);
    StopsOnlyWhenAllReported(cfg, actions);
    AllCompleted(cfg, actions);
    RunInvariants(cfg, actions);
  }

  // ---- What the peak does not say --------------------------------------------------------------

  lemma {:induction false} TraceExtend(cfg: Config, actions: seq<Action>, a: Action)
    ensures Trace(cfg, actions + [a]) == Trace(cfg, actions) + [Step(cfg, Last(cfg, actions), a)]
  {
  }

  predicate Serving(p: Pc) { InLoad(p) && !p.LeaveActive? }

  /** Every client is under load and free of its latch. */
  ghost predicate AllServing(s: State) {
    forall i :: 0 <= i < |s.pc| ==> Serving(s.pc[i])
  }

  ghost predicate NeverAllServing(cfg: Config, actions: seq<Action>) {
    forall s :: s in Trace(cfg, actions) ==> !AllServing(s)
  }

  function Mem(active: int, peak: int, authenticated: int): Shared {
    ZERO.(active := active, peak := peak, authenticated := authenticated)
  }

  /** One more step of a run in which client `idle` is not serving. */
  lemma {:induction false} Advance(cfg: Config, before: seq<Action>, pcs: seq<Pc>, m: Shared, who: nat, c: Choice,
                                   p: Pc, m': Shared, idle: nat)
    returns (after: seq<Action>)
    requires NeverAllServing(cfg, before) && Last(cfg, before) == State(pcs, m)
    requires who < |pcs| && ClientStep(cfg, pcs[who], m, c) == (p, m')
    requires idle < |pcs| && !Serving(pcs[who := p][idle])
    ensures NeverAllServing(cfg, after) && Last(cfg, after) == State(pcs[who := p], m')
  {
    TraceExtend(cfg, before, Action(who, c));
    after := before + [Action(who, c)];
  }

  const GONE := LeaveActive(true, Completed)

  /** The first client sets its latch before any other client has logged in. */
  lemma {:induction false} FirstClientLatches(cfg: Config) returns (actions: seq<Action>)
    requires cfg.n >= 2
    ensures NeverAllServing(cfg, actions)
    ensures Last(cfg, actions) == State(Init(cfg).pc[0 := GONE], Mem(1, 1, 1))
  {
    var pcs := Init(cfg).pc;
    actions := [];
    assert !Serving(pcs[1]);
    actions := Advance(cfg, actions, pcs, ZERO, 0, Login, LoadPeak(1), Mem(1, 0, 0), 1);
    actions := Advance(cfg, actions, pcs[0 := LoadPeak(1)], Mem(1, 0, 0), 0, Proceed, RaisePeak(1, 0), Mem(1, 0, 0), 1);
    assert pcs[0 := LoadPeak(1)][0 := RaisePeak(1, 0)] == pcs[0 := RaisePeak(1, 0)];
    actions := FirstClientCounts(cfg, actions);
  }

  lemma {:induction false} FirstClientCounts(cfg: Config, before: seq<Action>) returns (actions: seq<Action>)
    requires cfg.n >= 2 && NeverAllServing(cfg, before)
    requires Last(cfg, before) == State(Init(cfg).pc[0 := RaisePeak(1, 0)], Mem(1, 0, 0))
    ensures NeverAllServing(cfg, actions)
    ensures Last(cfg, actions) == State(Init(cfg).pc[0 := GONE], Mem(1, 1, 1))
  {
    var pcs := Init(cfg).pc;
    actions := Advance(cfg, before, pcs[0 := RaisePeak(1, 0)], Mem(1, 0, 0),
                       0, Proceed, CountAuthenticated, Mem(1, 1, 0), 1);
    assert pcs[0 := RaisePeak(1, 0)][0 := CountAuthenticated] == pcs[0 := CountAuthenticated];
    actions := Advance(cfg, actions, pcs[0 := CountAuthenticated], Mem(1, 1, 0), 0, Proceed, Running, Mem(1, 1, 1), 1);
    assert pcs[0 := CountAuthenticated][0 := Running] == pcs[0 := Running];
    actions := Advance(cfg, actions, pcs[0 := Running], Mem(1, 1, 1), 0, Finish(Completed), GONE, Mem(1, 1, 1), 1);
    assert pcs[0 := Running][0 := GONE] == pcs[0 := GONE];
  }

  /** One more client logs in and raises the peak while the first still has to report. */
  lemma {:induction false} NextClientRaisesPeak(cfg: Config, before: seq<Action>, pcs: seq<Pc>, k: nat)
    returns (actions: seq<Action>)
    requires NeverAllServing(cfg, before) && Last(cfg, before) == State(pcs, Mem(k, k, 1))
    requires 1 <= k < |pcs| && pcs[0] == GONE && pcs[k] == Connecting
    ensures NeverAllServing(cfg, actions)
    ensures Last(cfg, actions) == State(pcs[k := CountAuthenticated], Mem(k + 1, k + 1, 1))
  {
    actions := Advance(cfg, before, pcs, Mem(k, k, 1), k, Login, LoadPeak(k + 1), Mem(k + 1, k, 1), 0);
    actions := Advance(cfg, actions, pcs[k := LoadPeak(k + 1)], Mem(k + 1, k, 1),
                       k, Proceed, RaisePeak(k + 1, k), Mem(k + 1, k, 1), 0);
    assert pcs[k := LoadPeak(k + 1)][k := RaisePeak(k + 1, k)] == pcs[k := RaisePeak(k + 1, k)];
    actions := Advance(cfg, actions, pcs[k := RaisePeak(k + 1, k)], Mem(k + 1, k, 1),
                       k, Proceed, CountAuthenticated, Mem(k + 1, k + 1, 1), 0);
    assert pcs[k := RaisePeak(k + 1, k)][k := CountAuthenticated] == pcs[k := CountAuthenticated];
  }

  /** "Not reported" cannot be sharpened to "latch not set" for all runs: with any two or more clients
      the first can set its latch before the others log in, and the peak still reaches the target. */
  lemma {:induction false} LatchedClientCounts(cfg: Config) returns (actions: seq<Action>)
    requires cfg.n >= 2
    ensures Last(cfg, actions).m.peak == cfg.n && NeverAllServing(cfg, actions)
  {
    actions := FirstClientLatches(cfg);
    var pcs, k := Init(cfg).pc[0 := GONE], 1;
    while k < cfg.n
      invariant 1 <= k <= cfg.n == |pcs| && pcs[0] == GONE
      invariant forall i :: k <= i < cfg.n ==> pcs[i] == Connecting
      invariant NeverAllServing(cfg, actions) && Last(cfg, actions) == State(pcs, Mem(k, k, 1))
    {
      actions := NextClientRaisesPeak(cfg, actions, pcs, k);
      pcs, k := pcs[k := CountAuthenticated], k + 1;
    }
  }

  // ---- When the peak does say it -----------------------------------------------------------------

  lemma {:induction false} TraceStep(cfg: Config, actions: seq<Action>, k: nat)
    requires k < |actions|
    ensures Trace(cfg, actions)[k + 1] == Step(cfg, Trace(cfg, actions)[k], actions[k])
  {
    TracePrefix(cfg, actions, k);
    TracePrefix(cfg, actions, k + 1);
    assert actions[..k + 1][..k] == actions[..k];
  }

  lemma {:induction false} TraceFirst(cfg: Config, actions: seq<Action>)
    ensures Trace(cfg, actions)[0] == Init(cfg)
  {
    TracePrefix(cfg, actions, 0);
  }

  /** Nobody goes back: who is connecting, serving or under load has only been so, or connecting, before. */
  predicate NoWayBack(before: Pc, after: Pc) {
    && (after.Connecting? ==> before.Connecting?)
    && (Serving(after) ==> before.Connecting? || Serving(before))
    && (InLoad(after) ==> before.Connecting? || InLoad(before))
  }

  lemma {:induction false} NoWayBackStep(cfg: Config, s: State, a: Action, i: nat)
    requires i < |s.pc|
    ensures NoWayBack(s.pc[i], Step(cfg, s, a).pc[i])
  {
    if Moves(s, a) && Terminal(s.pc[a.who]) {
      TerminalOthers(cfg, s.pc[a.who], s.m);
    }
  }

  lemma {:induction false} NoWayBackRun(cfg: Config, actions: seq<Action>, j: nat, k: nat, i: nat)
    requires j <= k <= |actions| && i < cfg.n
    ensures NoWayBack(Trace(cfg, actions)[j].pc[i], Trace(cfg, actions)[k].pc[i])
    decreases k
  {
    if j < k {
      NoWayBackRun(cfg, actions, j, k - 1, i);
      TraceStep(cfg, actions, k - 1);
      NoWayBackStep(cfg, Trace(cfg, actions)[k - 1], actions[k - 1], i);
    }
  }

  ghost predicate SomeConnecting(s: State) {
    exists i :: 0 <= i < |s.pc| && s.pc[i].Connecting?
  }

  /** The last instant before `k` at which a client is still connecting. */
  lemma {:induction false} LastConnecting(cfg: Config, actions: seq<Action>, k: nat) returns (j: nat)
    requires cfg.n > 0 && k <= |actions| && !SomeConnecting(Trace(cfg, actions)[k])
    ensures j < k && SomeConnecting(Trace(cfg, actions)[j]) && !SomeConnecting(Trace(cfg, actions)[j + 1])
  {
    assert SomeConnecting(Trace(cfg, actions)[0]) by {
      TraceFirst(cfg, actions);
      assert Init(cfg).pc[0].Connecting?;
    }
    j := k - 1;
    while !SomeConnecting(Trace(cfg, actions)[j])
      invariant 0 <= j < k && !SomeConnecting(Trace(cfg, actions)[j + 1])
      decreases j
    {
      j := j - 1;
    }
  }

  /** The step does not set the latch of an authenticated client while another one is connecting. */
  ghost predicate LatchesLate(s: State, a: Action) {
    Moves(s, a) && s.pc[a.who].Running? && a.choice.Finish? ==> !SomeConnecting(s)
  }

  ghost predicate AllLatchLate(cfg: Config, actions: seq<Action>) {
    forall k :: 0 <= k < |actions| ==> LatchesLate(Trace(cfg, actions)[k], actions[k])
  }

  predicate Latched(p: Pc) { Terminal(p) && p.authed }

  ghost predicate NoneLatched(s: State) {
    forall i :: 0 <= i < |s.pc| ==> !Latched(s.pc[i])
  }

  lemma {:induction false} NoneLatchedStep(cfg: Config, s: State, a: Action)
    requires NoneLatched(s) && SomeConnecting(s) && LatchesLate(s, a)
    ensures NoneLatched(Step(cfg, s, a))
  {
    if Moves(s, a) && Terminal(s.pc[a.who]) {
      TerminalOthers(cfg, s.pc[a.who], s.m);
    }
  }

  /** With late latches nobody is latched up to the step with which the last client stops connecting. */
  lemma {:induction false} NoneLatchedRun(cfg: Config, actions: seq<Action>, k: nat)
    requires AllLatchLate(cfg, actions) && k <= |actions|
    requires k > 0 ==> SomeConnecting(Trace(cfg, actions)[k - 1])
    ensures NoneLatched(Trace(cfg, actions)[k])
  {
    if k == 0 {
      TraceFirst(cfg, actions);
    } else {
      if k > 1 {
        var i :| 0 <= i < cfg.n && Trace(cfg, actions)[k - 1].pc[i].Connecting?;
        NoWayBackRun(cfg, actions, k - 2, k - 1, i);
      }
      NoneLatchedRun(cfg, actions, k - 1);
      TraceStep(cfg, actions, k - 1);
      NoneLatchedStep(cfg, Trace(cfg, actions)[k - 1], actions[k - 1]);
    }
  }

  /** With late latches all clients serve as soon as none is connecting, if all are ever under load. */
  lemma {:induction false} LateLatchesServe(cfg: Config, actions: seq<Action>, k: nat)
    requires cfg.n > 0 && AllLatchLate(cfg, actions) && k <= |actions| && AllInLoad(Trace(cfg, actions)[k])
    ensures exists j :: 0 <= j <= |actions| && AllServing(Trace(cfg, actions)[j])
  {
    var j := LastConnecting(cfg, actions, k);
    NoneLatchedRun(cfg, actions, j + 1);
    var s := Trace(cfg, actions)[j + 1];
    forall i | 0 <= i < cfg.n ensures Serving(s.pc[i]) {
      NoWayBackRun(cfg, actions, j + 1, k, i);
    }
    assert AllServing(s);
  }

  /** Once all clients have served at one instant, no latch was or will be set while one connects. */
  lemma {:induction false} ServedLatchesLate(cfg: Config, actions: seq<Action>, k: nat, j: nat)
    requires k <= |actions| && AllServing(Trace(cfg, actions)[k]) && j < |actions|
    ensures LatchesLate(Trace(cfg, actions)[j], actions[j])
  {
    var s, a := Trace(cfg, actions)[j], actions[j];
    if Moves(s, a) && s.pc[a.who].Running? && a.choice.Finish? && SomeConnecting(s) {
      if j < k {
        TraceStep(cfg, actions, j);
        NoWayBackRun(cfg, actions, j + 1, k, a.who);
      } else {
        var i :| 0 <= i < cfg.n && s.pc[i].Connecting?;
        NoWayBackRun(cfg, actions, k, j, i);
      }
    }
  }

  /** When a full peak proves more: at one instant every client was authenticated and had not set its
      latch, exactly when no authenticated client was latched while another was still connecting. */
  lemma {:induction false} FullServiceIff(cfg: Config, actions: seq<Action>)
    requires cfg.n > 0 && Last(cfg, actions).m.peak == cfg.n
    ensures (exists k :: 0 <= k <= |actions| && AllServing(Trace(cfg, actions)[k])) <==> AllLatchLate(cfg, actions)
  {
    if AllLatchLate(cfg, actions) {
      FullLoadInstant(cfg, actions);
      var k :| 0 <= k <= |actions| && AllInLoad(Trace(cfg, actions)[k]);
      LateLatchesServe(cfg, actions, k);
    }
    if k :| 0 <= k <= |actions| && AllServing(Trace(cfg, actions)[k]) {
      forall j | 0 <= j < |actions| ensures LatchesLate(Trace(cfg, actions)[j], actions[j]) {
        ServedLatchesLate(cfg, actions, k, j);
      }
    }
  }

  /** After the start of the measurement nobody is connecting any more. */
  lemma {:induction false} NoneConnectingAfterStart(cfg: Config, actions: seq<Action>, k: nat)
    requires k <= |actions| && Trace(cfg, actions)[k].m.started
    ensures !SomeConnecting(Trace(cfg, actions)[k])
  {
    var s := Trace(cfg, actions)[k];
    TracePrefix(cfg, actions, k);
    StartWonOnce(cfg, actions[..k]);
    TallyExact(cfg, actions, k, TAuthenticated);
    CountAll(s.pc, Test(TAuthenticated));
    assert forall i :: 0 <= i < |s.pc| ==> Test(TAuthenticated)(s.pc[i]) == Authenticated(s.pc[i]);
  }

  /** In particular a full peak proves it when authenticated clients are latched only after the start,
      that is, when nobody fails or is cancelled between login and start. */
  lemma {:induction false} FullServiceInstant(cfg: Config, actions: seq<Action>)
    requires cfg.n > 0 && Last(cfg, actions).m.peak == cfg.n
    requires forall k :: 0 <= k < |actions| ==> StartedFirst(Trace(cfg, actions)[k], actions[k])
    ensures exists k :: 0 <= k <= |actions| && AllServing(Trace(cfg, actions)[k])
  {
    forall k | 0 <= k < |actions| ensures LatchesLate(Trace(cfg, actions)[k], actions[k]) {
      if Trace(cfg, actions)[k].m.started {
        NoneConnectingAfterStart(cfg, actions, k);
      }
    }
    FullServiceIff(cfg, actions);
  }

  predicate StartedFirst(s: State, a: Action) {
    Moves(s, a) && s.pc[a.who].Running? && a.choice.Finish? ==> s.m.started
  }
}
