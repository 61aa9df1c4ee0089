/** The shared state of the server and the atomic steps of its four actors: the accept
    chain, the I/O handlers, the timing wheel and the manage thread. One wheel visit,
    one handler and one manage pass are each one step; every other interleaving of the
    actors is a run of this machine. */
module Protocol {
  import opened Lifecycle

  type Conn = nat

  const BUCKETS := 10

  datatype Config = Config(max: nat, expire: nat) {
    // get_conn_check_spare
    function Spare(): nat { expire / BUCKETS }
    // cached_conns_.size() < max_serve_conns_cnt_ * 0.3
    predicate CacheHasRoom(size: nat) { 10 * size < 3 * max }
    // The least size at which the cache has no room: 3*max/10 rounded up.
    function CacheCap(): nat { (3 * max + 9) / 10 }
  }

  /** Where the accept chain stands. `Checked`: past the unlocked limit check;
      `Emplaced(c)`: past the locked section, `start()` not yet called;
      `Started(c)`: started, the next accept not yet issued. */
  datatype AcceptPhase = Listening | Checked | Emplaced(c: Conn) | Started(c: Conn) | Stopped

  /** The wheel thread inside a check: its modified copy of bucket 0, and the entries
      of bucket 0 its loop has still to visit. */
  datatype Scan = Idle | Scanning(modi: set<Conn>, toVisit: set<Conn>)

  datatype State = State(
    conns: map<Conn, Life>,     // every connection object made so far
    front: set<Conn>,           // keys of front_conns_
    cnt: int,                   // current_conns_cnt_
    cached: seq<Conn>,          // cached_conns_
    pending: set<Conn>,         // pending_to_remove_
    wheel: seq<set<Conn>>,      // timing_wheel_, bucket 0 first
    held: multiset<Conn>,       // strong pointers held by accept handler frames
    accept: AcceptPhase,
    scan: Scan,
    now: int,
    due: int,                   // expiry of timing_wheel_timer_
    ticks: nat,                 // wheel rotations so far
    aborted: bool)              // an assert of the program has failed

  datatype Action =
    | AcceptFails
    | AcceptRefused
    | AcceptChecked
    | AcceptEmplaced(c: Conn)
    | AcceptStarted
    | AcceptAgain
    | FrameReturns(c: Conn)
    | ReadCompletes(c: Conn, re: ReadEnd)
    | WriteCompletes(c: Conn, we: WriteEnd)
    | WheelCopies
    | WheelVisits(c: Conn)
    | WheelPushes
    | ManageRuns(order: seq<Conn>)
    | ClockTicks(d: nat)

  /** shared_ptr::use_count of a connection outside any running step. */
  function UseCount(s: State, c: Conn): nat
    requires c in s.conns
  {
    (if c in s.front then 1 else 0) + (if c in s.pending then 1 else 0) + multiset(s.cached)[c]
    + s.conns[c].rOps + s.conns[c].wOps + s.held[c]
  }

  predicate Expired(cfg: Config, touch: int, now: int) {
    touch + (cfg.expire - cfg.Spare()) <= now
  }

  predicate Distinct(q: seq<Conn>) {
    forall i, j :: 0 <= i < j < |q| ==> q[i] != q[j]
  }

  function Elems(q: seq<Conn>): set<Conn> { set c | c in q }

  /** The order in which the pass iterates over pending_to_remove_. */
  predicate Enumerates(order: seq<Conn>, cs: set<Conn>) {
    Distinct(order) && Elems(order) == cs
  }

  predicate Shaped(s: State) {
    |s.wheel| == BUCKETS && s.pending <= s.conns.Keys
  }

  predicate Enabled(s: State, a: Action) {
    Shaped(s) && !s.aborted &&
    match a
    case AcceptFails => s.accept.Listening?
    case AcceptRefused => s.accept.Listening?
    case AcceptChecked => s.accept.Listening?
    case AcceptEmplaced(c) =>
      s.accept.Checked? && (if s.cached == [] then c !in s.conns else c == s.cached[0] && c in s.conns)
    case AcceptStarted => s.accept.Emplaced? && s.accept.c in s.conns
    case AcceptAgain => s.accept.Started?
    case FrameReturns(c) =>
      s.held[c] > (if s.accept == Emplaced(c) || s.accept == Started(c) then 1 else 0)
    case ReadCompletes(c, _) => c in s.conns && s.conns[c].rOps >= 1
    case WriteCompletes(c, _) => c in s.conns && s.conns[c].wOps >= 1
    case WheelCopies => s.scan.Idle? && s.now >= s.due
    case WheelVisits(c) => s.scan.Scanning? && c in s.scan.toVisit && c in s.conns
    case WheelPushes => s.scan.Scanning? && s.scan.toVisit == {}
    case ManageRuns(order) => s.pending != {} && Enumerates(order, s.pending)
    case ClockTicks(_) => true
  }

  /** Which way the unlocked limit check goes is decided by the counter. */
  predicate Allowed(cfg: Config, s: State, a: Action) {
    && Enabled(s, a)
    && (a.AcceptRefused? ==> s.cnt >= cfg.max)
    && (a.AcceptChecked? ==> s.cnt < cfg.max)
  }

  function Next(cfg: Config, s: State, a: Action): State
    requires Enabled(s, a)
  {
    match a
    case AcceptFails => s.(accept := Stopped)
    case AcceptRefused => s
    case AcceptChecked => s.(accept := Checked)
    case AcceptEmplaced(c) => Emplace(s, c)
    case AcceptStarted =>
      s.(conns := s.conns[s.accept.c := StartLife(s.conns[s.accept.c], s.now)], accept := Started(s.accept.c))
    case AcceptAgain => s.(accept := Listening)
    case FrameReturns(c) => s.(held := s.held[c := s.held[c] - 1])
    case ReadCompletes(c, e) =>
      s.(conns := s.conns[c := AfterRead(s.conns[c], e, s.now)],
         pending := if e.ReadFailed? then s.pending + {c} else s.pending)
    case WriteCompletes(c, e) =>
      s.(conns := s.conns[c := AfterWrite(s.conns[c], e, s.now)],
         pending := if e.WriteFailed? then s.pending + {c} else s.pending)
    case WheelCopies => s.(scan := Scanning(s.wheel[0], s.wheel[0]))
    case WheelVisits(c) => Visit(cfg, s, c)
    case WheelPushes =>
      s.(wheel := s.wheel[1..] + [s.scan.modi], scan := Idle, due := s.now + cfg.Spare(), ticks := s.ticks + 1)
    case ManageRuns(order) => ManagePass(cfg, s, order)
    case ClockTicks(d) => s.(now := s.now + d)
  }

  /** The section of accept_handler under front_conns_mutex_, with its assertion. */
  function Emplace(s: State, c: Conn): State
    requires Shaped(s) && (s.cached == [] || (c == s.cached[0] && c in s.conns))
  {
    if s.cached != [] && UseCount(s, c) != 1 then s.(aborted := true) else Taken(s, c)
  }

  function Taken(s: State, c: Conn): State
    requires Shaped(s) && (s.cached == [] || c in s.conns)
  {
    var life := if s.cached == [] then Life(Pending, 0, 0, s.now) else s.conns[c].(touch := s.now);
    s.(conns := s.conns[c := life],
       cached := if s.cached == [] then [] else s.cached[1..],
       front := s.front + {c},
       cnt := s.cnt + 1,
       wheel := Enrol(s.wheel, c),
       held := s.held[c := s.held[c] + 1],
       accept := Emplaced(c))
  }

  // timing_wheel_.back().insert(...)
  function Enrol(wheel: seq<set<Conn>>, c: Conn): seq<set<Conn>>
    requires |wheel| == BUCKETS
  {
    wheel[BUCKETS - 1 := wheel[BUCKETS - 1] + {c}]
  }

  /** One iteration of the loop over bucket 0 in timing_wheel_check. */
  function Visit(cfg: Config, s: State, c: Conn): State
    requires s.scan.Scanning? && c in s.conns
  {
    var left := s.scan.toVisit - {c};
    var dropped := s.(scan := Scanning(s.scan.modi - {c}, left));
    if UseCount(s, c) == 0 then dropped
    else if s.conns[c].stats.Pending? then
      if c in s.cached then dropped else s.(aborted := true)
    else if Expired(cfg, s.conns[c].touch, s.now) then
      dropped.(conns := s.conns[c := s.conns[c].(stats := Error)], pending := s.pending + {c})
    else s.(scan := Scanning(s.scan.modi, left))
  }

  /** One iteration of the removal loop; the local `item` is one more reference. */
  function ManageItem(cfg: Config, s: State, c: Conn): (r: State)
    requires |s.wheel| == BUCKETS && c in s.conns
    ensures |r.wheel| == BUCKETS && r.conns.Keys == s.conns.Keys
  {
    if c !in s.front then s
    else if UseCount(s, c) + 1 > 3 then s.(wheel := Enrol(s.wheel, c))
    else
      var r := s.(front := s.front - {c}, cnt := s.cnt - 1);
      if !cfg.CacheHasRoom(|s.cached|) then r
      else if s.conns[c].stats.Working? then r.(aborted := true)   // conn_wash_white's assert
      else r.(conns := s.conns[c := s.conns[c].(stats := Pending)], cached := s.cached + [c])
  }

  function ManageItems(cfg: Config, s: State, order: seq<Conn>): (r: State)
    requires |s.wheel| == BUCKETS && Elems(order) <= s.conns.Keys
    ensures |r.wheel| == BUCKETS && r.conns.Keys == s.conns.Keys
  {
    if order == [] then s else
    var n := |order| - 1;
    assert order == order[..n] + [order[n]];
    ManageItem(cfg, ManageItems(cfg, s, order[..n]), order[n])
  }

  function ManagePass(cfg: Config, s: State, order: seq<Conn>): State
    requires |s.wheel| == BUCKETS && Elems(order) <= s.conns.Keys
  {
    var r := ManageItems(cfg, s, order);
    r.(pending := {}, aborted := r.aborted || |r.front| != r.cnt)
  }

  /** A run: states[k + 1] is states[k] after acts[k]. */
  datatype Run = Run(states: seq<State>, acts: seq<Action>) {
    function First(): State requires |states| > 0 { states[0] }
    function Last(): State requires |states| > 0 { states[|states| - 1] }
  }

  ghost predicate IsRun(cfg: Config, run: Run) {
    && |run.states| == |run.acts| + 1
    && forall k :: 0 <= k < |run.acts| ==>
         Allowed(cfg, run.states[k], run.acts[k]) && run.states[k + 1] == Next(cfg, run.states[k], run.acts[k])
  }

  /** After `run()` filled the wheel, with the first accept outstanding. */
  predicate Initial(cfg: Config, s: State) {
    && s.conns == map[] && s.front == {} && s.cnt == 0 && s.cached == [] && s.pending == {}
    && s.wheel == seq(BUCKETS, i => {}) && s.held == multiset{} && s.accept.Listening?
    && s.scan.Idle? && s.due == s.now + cfg.Spare() && s.ticks == 0 && !s.aborted
  }
}
