/**
 * The switch engine of `internal/service/filter`. The monitor goroutine is a loop over the
 * events it reacts to: a ticker tick, carrying what `GetBytesByIP` returned for the watched
 * address at that moment, or a filter arriving on the `turnOff` channel, carrying that
 * filter's active address. `Start`, `Step` and `Run` state what the monitor does as
 * functions of those events; `Service.AutoSwitch` is the loop itself, proved equal to `Run`.
 */
module Switcher {
  import opened Wrappers
  import opened FilterModel
  import opened Tc
  import Statistic
  import opened GoMaps

  datatype Event = Tick(sample: Option<nat>) | TurnOff(ip: string)

  /** Why a monitor returned. */
  datatype Exit = AlreadyRunning | TurnedOff | Disabled | LookupFailed

  /**
   * Where a monitor is: about to check the in-flight set (a freshly spawned goroutine),
   * watching `ip` with `tries` equal samples so far, or gone.
   */
  datatype Phase = Starting | Monitoring(ip: string, tries: nat) | Exited(reason: Exit)

  /** What a monitor reads and writes: the filter's baseline and side, the in-flight set, the rule log. */
  datatype State = State(bytes: Option<nat>, isMasterActual: bool, queue: set<string>, log: seq<TcCall>)

  /** The filter's fields that a monitor only reads. */
  datatype Conf = Conf(iface: string, masterIP: string, slaveIP: string, dstIP: string, cfg: Cfg)

  function ActiveIP(c: Conf, isMaster: bool): string {
    if isMaster then c.masterIP else c.slaveIP
  }

  /** The redirect rule of one side, with that side's priority. */
  function SideRule(c: Conf, isMaster: bool): Rule {
    if isMaster then Rule(c.iface, c.cfg.masterPrio, c.masterIP, c.dstIP)
    else Rule(c.iface, c.cfg.slavePrio, c.slaveIP, c.dstIP)
  }

  /** `ChangeFilter`'s two commands: delete the active side's rule, then add the other side's. */
  function SwapCalls(c: Conf, isMaster: bool): (calls: seq<TcCall>)
    ensures |calls| == 2
    ensures calls[0] == TcCall(Delete, SideRule(c, isMaster))
    ensures calls[1] == TcCall(Add, SideRule(c, !isMaster))
  {
    [TcCall(Delete, SideRule(c, isMaster)), TcCall(Add, SideRule(c, !isMaster))]
  }

  /**
   * The probe that picks a filter's side at startup, from whether each side's address has
   * statistics: slave first, then master, and only when neither has is master's rule added.
   */
  function InitialSide(masterSeen: bool, slaveSeen: bool): (r: (bool, bool))
    ensures r.0 <==> !slaveSeen
    ensures r.1 <==> !masterSeen && !slaveSeen
  {
    if slaveSeen then (false, false)
    else if masterSeen then (true, false)
    else (true, true)
  }

  /**
   * The first thing a monitor does: give up if its address is already in flight, otherwise
   * record it. Either way the address is in flight afterwards and nothing else changes.
   */
  function Start(c: Conf, s: State): (r: (State, Phase))
    ensures r.1 == Exited(AlreadyRunning) <==> ActiveIP(c, s.isMasterActual) in s.queue
    ensures r.1 != Exited(AlreadyRunning) ==> r.1 == Monitoring(ActiveIP(c, s.isMasterActual), 0)
    ensures r.0 == s.(queue := s.queue + {ActiveIP(c, s.isMasterActual)})
  {
    var ip := ActiveIP(c, s.isMasterActual);
    if ip in s.queue then (s, Exited(AlreadyRunning))
    else (s.(queue := s.queue + {ip}), Monitoring(ip, 0))
  }

  /** The state after a failover of the monitor that watched `ip`. */
  function Failover(c: Conf, s: State, ip: string): (r: State)
    ensures r.bytes.None? && r.isMasterActual == !s.isMasterActual
    ensures ip !in r.queue && r.queue + {ip} == s.queue + {ip}
    ensures r.log == s.log + [TcCall(Delete, SideRule(c, s.isMasterActual)), TcCall(Add, SideRule(c, !s.isMasterActual))]
  {
    State(None, !s.isMasterActual, s.queue - {ip}, s.log + SwapCalls(c, s.isMasterActual))
  }

  /**
   * One `select` of a monitor watching `ip` after `tries` equal samples. The only change to
   * the rule log is one swap, which also flips the side and respawns the monitor.
   */
  function Step(c: Conf, s: State, ip: string, tries: nat, ev: Event): (r: (State, Phase))
    ensures r.0.log == s.log || (r.0 == Failover(c, s, ip) && r.1 == Starting)
    ensures r.1.Starting? ==> r.0 == Failover(c, s, ip)
  {
    match ev
    case TurnOff(g) =>
      if g in s.queue then (s.(queue := s.queue - {g}), Exited(TurnedOff))
      else (s, Monitoring(ip, tries))
    case Tick(sample) =>
      if !c.cfg.autoSwitch then (s, Exited(Disabled))
      else if sample.None? then (s, Exited(LookupFailed))
      else if s.bytes.None? then (s.(bytes := sample), Monitoring(ip, tries))
      else if s.bytes.value == sample.value then
        if tries + 1 >= c.cfg.tries then (Failover(c, s, ip), Starting)
        else (s, Monitoring(ip, tries + 1))
      else (s.(bytes := sample), Monitoring(ip, 0))
  }

  /**
   * The monitor (and the monitors it respawns) consuming `evs` in order; it stops when it
   * exits or when the events run out.
   */
  function Run(c: Conf, s: State, ph: Phase, evs: seq<Event>): (r: (State, Phase))
    ensures !r.1.Starting?
    ensures r.1.Monitoring? ==> !ph.Exited?
    decreases |evs|, if ph.Starting? then 1 else 0
  {
    match ph
    case Starting =>
      var (s', ph') := Start(c, s);
      Run(c, s', ph', evs)
    case Exited(_) => (s, ph)
    case Monitoring(ip, tries) =>
      if evs == [] then (s, ph)
      else
        var (s', ph') := Step(c, s, ip, tries, evs[0]);
        Run(c, s', ph', evs[1..])
  }

  // ---------------------------------------------------------------------------------------
  // The stall counter

  /** A baseline tick leaves the stall count alone; a different sample, even a smaller one, resets it. */
  lemma TickStoresBaseline(c: Conf, s: State, ip: string, tries: nat, v: nat)
    requires c.cfg.autoSwitch
    ensures s.bytes.None? ==> Step(c, s, ip, tries, Tick(Some(v))) == (s.(bytes := Some(v)), Monitoring(ip, tries))
    ensures s.bytes.Some? && s.bytes.value != v ==>
      Step(c, s, ip, tries, Tick(Some(v))) == (s.(bytes := Some(v)), Monitoring(ip, 0))
  {
  }

  /** `k` ticks that all report the count `b`. */
  function Stalls(b: nat, k: nat): (evs: seq<Event>)
    ensures |evs| == k && forall i :: 0 <= i < k ==> evs[i] == Tick(Some(b))
  {
    seq(k, _ => Tick(Some(b)))
  }

  /** Running over `a + b` is running over `a` and then over `b` from where that left off. */
  lemma {:induction false} RunAppend(c: Conf, s: State, ph: Phase, a: seq<Event>, b: seq<Event>)
    ensures Run(c, s, ph, a + b) == Run(c, Run(c, s, ph, a).0, Run(c, s, ph, a).1, b)
    decreases |a|, if ph.Starting? then 1 else 0
  {
    match ph
    case Starting =>
      var (s', ph') := Start(c, s);
      RunAppend(c, s', ph', a, b);
    case Exited(_) =>
    case Monitoring(ip, tries) =>
      if a == [] {
        assert a + b == b;
      } else {
        var (s', ph') := Step(c, s, ip, tries, a[0]);
        assert (a + b)[0] == a[0] && (a + b)[1..] == a[1..] + b;
        RunAppend(c, s', ph', a[1..], b);
      }
  }

  /** Below the threshold, each equal sample adds one to the stall count and changes nothing else. */
  lemma {:induction false} StallsCount(c: Conf, s: State, ip: string, tries: nat, k: nat)
    requires c.cfg.autoSwitch && s.bytes.Some?
    requires tries + k < c.cfg.tries
    ensures Run(c, s, Monitoring(ip, tries), Stalls(s.bytes.value, k)) == (s, Monitoring(ip, tries + k))
    decreases k
  {
    if k > 0 {
      var evs := Stalls(s.bytes.value, k);
      assert evs[1..] == Stalls(s.bytes.value, k - 1);
      StallsCount(c, s, ip, tries + 1, k - 1);
    }
  }

  /**
   * Hysteresis: from a stored baseline `b`, `tries - 1` equal samples do not fail over and the
   * `tries`-th does: it clears the baseline, swaps the rules once, flips the side, removes the
   * old address from the in-flight set, and a new monitor starts on the other side.
   */
  lemma FailsOverAtThreshold(c: Conf, s: State, ip: string)
    requires c.cfg.autoSwitch && s.bytes.Some? && c.cfg.tries >= 1
    ensures Run(c, s, Monitoring(ip, 0), Stalls(s.bytes.value, c.cfg.tries - 1)) == (s, Monitoring(ip, c.cfg.tries - 1))
    ensures Run(c, s, Monitoring(ip, 0), Stalls(s.bytes.value, c.cfg.tries)) == Start(c, Failover(c, s, ip))
  {
    var b, n := s.bytes.value, c.cfg.tries;
    StallsCount(c, s, ip, 0, n - 1);
    assert Stalls(b, n) == Stalls(b, n - 1) + [Tick(Some(b))];
    RunAppend(c, s, Monitoring(ip, 0), Stalls(b, n - 1), [Tick(Some(b))]);
    var f := Failover(c, s, ip);
    assert [Tick(Some(b))][1..] == [];
    assert Step(c, s, ip, n - 1, Tick(Some(b))) == (f, Starting);
    assert Run(c, s, Monitoring(ip, n - 1), [Tick(Some(b))]) == Run(c, f, Starting, []);
    assert Run(c, f, Starting, []) == Run(c, Start(c, f).0, Start(c, f).1, []);
  }

  /** A freshly configured master-side filter. */
  function Fresh(): State {
    State(None, true, {}, [])
  }

  /**
   * With `Tries = 3`, the samples 100, 100, 100, 100 fail over on the fourth: after three of
   * them no rule has changed; after the fourth the master rule is swapped for the slave rule
   * and a monitor watches the slave.
   */
  lemma FourEqualSamplesFailOver(c: Conf)
    requires c.cfg.autoSwitch && c.cfg.tries == 3 && c.masterIP != c.slaveIP
    ensures Run(c, Fresh(), Starting, Stalls(100, 3)) == (State(Some(100), true, {c.masterIP}, []), Monitoring(c.masterIP, 2))
    ensures Run(c, Fresh(), Starting, Stalls(100, 4)) ==
      (State(None, false, {c.slaveIP}, SwapCalls(c, true)), Monitoring(c.slaveIP, 0))
  {
    var s1 := State(Some(100), true, {c.masterIP}, []);
    var m := Monitoring(c.masterIP, 0);
    assert {} + {c.masterIP} == {c.masterIP};
    assert Start(c, Fresh()) == (Fresh().(queue := {c.masterIP}), m);
    assert Step(c, Fresh().(queue := {c.masterIP}), c.masterIP, 0, Tick(Some(100))) == (s1, m);
    assert Stalls(100, 3)[1..] == Stalls(100, 2);
    assert Stalls(100, 4)[1..] == Stalls(100, 3);
    StallsCount(c, s1, c.masterIP, 0, 2);
    FailsOverAtThreshold(c, s1, c.masterIP);
    var f := Failover(c, s1, c.masterIP);
    assert {c.masterIP} - {c.masterIP} == {};
    assert f == State(None, false, {}, SwapCalls(c, true));
    assert {} + {c.slaveIP} == {c.slaveIP};
    assert Start(c, f) == (State(None, false, {c.slaveIP}, SwapCalls(c, true)), Monitoring(c.slaveIP, 0));
  }

  /**
   * The stall test is equality: with `Tries = 3`, the samples 100, 150, 100, 100, 100 reset
   * twice (150 is larger, the next 100 smaller) and end with two stalls and no failover.
   */
  lemma ChangedSamplesReset(c: Conf)
    requires c.cfg.autoSwitch && c.cfg.tries == 3
    ensures Run(c, Fresh(), Starting, [Tick(Some(100)), Tick(Some(150)), Tick(Some(100)), Tick(Some(100)), Tick(Some(100))])
      == (State(Some(100), true, {c.masterIP}, []), Monitoring(c.masterIP, 2))
  {
    var evs := [Tick(Some(100)), Tick(Some(150)), Tick(Some(100)), Tick(Some(100)), Tick(Some(100))];
    var q := {c.masterIP};
    var ip := c.masterIP;
    assert {} + q == q;
    assert Start(c, Fresh()) == (Fresh().(queue := q), Monitoring(ip, 0));
    assert evs[1..] == [Tick(Some(150)), Tick(Some(100)), Tick(Some(100)), Tick(Some(100))];
    assert evs[2..] == evs[1..][1..];
    assert evs[3..] == evs[2..][1..] == Stalls(100, 2);
    var s100 := State(Some(100), true, q, []);
    assert Run(c, Fresh(), Starting, evs) == Run(c, State(Some(150), true, q, []), Monitoring(ip, 0), evs[2..]);
    assert Run(c, Fresh(), Starting, evs) == Run(c, s100, Monitoring(ip, 0), evs[3..]);
    StallsCount(c, s100, ip, 0, 2);
  }

  // ---------------------------------------------------------------------------------------
  // The in-flight set

  /**
   * Two exits keep the monitor's own address in flight: auto-switch off on a tick, and a failed
   * lookup. A monitor spawned later for the same side then returns at once.
   */
  lemma StaleEntryBlocksRestart(c: Conf, s: State, tries: nat, sample: Option<nat>)
    requires ActiveIP(c, s.isMasterActual) in s.queue
    requires !c.cfg.autoSwitch || sample.None?
    ensures Step(c, s, ActiveIP(c, s.isMasterActual), tries, Tick(sample)).0 == s
    ensures Step(c, s, ActiveIP(c, s.isMasterActual), tries, Tick(sample)).1.Exited?
    ensures Run(c, s, Starting, []) == (s, Exited(AlreadyRunning))
  {
  }

  /**
   * A turn-off is not matched against the monitor's own address: any address in flight makes
   * the monitor exit, and it is that address, not the monitor's, that leaves the set.
   */
  lemma TurnOffRemovesSignalledAddress(c: Conf, s: State, ip: string, tries: nat, g: string)
    requires ip in s.queue
    ensures g in s.queue ==> Step(c, s, ip, tries, TurnOff(g)) == (s.(queue := s.queue - {g}), Exited(TurnedOff))
    ensures g in s.queue && g != ip ==> ip in Step(c, s, ip, tries, TurnOff(g)).0.queue
    ensures g !in s.queue ==> Step(c, s, ip, tries, TurnOff(g)) == (s, Monitoring(ip, tries))
  {
  }

  // ---------------------------------------------------------------------------------------
  // One rule per route

  /** Of the filter's two rules, exactly the active side's is installed. */
  predicate OneRule(c: Conf, installed: set<Rule>, isMaster: bool) {
    installed * {SideRule(c, true), SideRule(c, false)} == {SideRule(c, isMaster)}
  }

  /** The two sides' rules are never installed at the same time. */
  predicate NoTwoRules(c: Conf, installed: set<Rule>) {
    SideRule(c, true) in installed && SideRule(c, false) in installed ==> SideRule(c, true) == SideRule(c, false)
  }

  lemma OneRuleHasNoTwo(c: Conf, installed: set<Rule>, isMaster: bool)
    requires OneRule(c, installed, isMaster)
    ensures NoTwoRules(c, installed)
  {
    if SideRule(c, true) in installed && SideRule(c, false) in installed {
      assert SideRule(c, true) in installed * {SideRule(c, true), SideRule(c, false)};
      assert SideRule(c, false) in installed * {SideRule(c, true), SideRule(c, false)};
    }
  }

  /** The swap keeps exactly one rule installed, and between its two commands there is at most one. */
  lemma {:induction false} SwapKeepsOneRule(c: Conf, installed: set<Rule>, isMaster: bool)
    requires OneRule(c, installed, isMaster)
    ensures NoTwoRules(c, Apply(installed, SwapCalls(c, isMaster)[..1]))
    ensures OneRule(c, Apply(installed, SwapCalls(c, isMaster)), !isMaster)
  {
    var calls := SwapCalls(c, isMaster);
    assert calls[..1][..0] == [] && calls[..1] == [calls[0]];
    assert calls[..1] == calls[..|calls| - 1];
    var afterDelete := installed - {SideRule(c, isMaster)};
    assert Apply(installed, calls[..1]) == afterDelete;
    assert Apply(installed, calls) == afterDelete + {SideRule(c, !isMaster)};
  }

  /** After the filter's rules asserted by `OneRule`, no prefix of the log from `from` on installs both. */
  predicate PrefixesSafe(c: Conf, init: set<Rule>, log: seq<TcCall>, from: nat) {
    from <= |log| && forall k :: from <= k <= |log| ==> NoTwoRules(c, Apply(init, log[..k]))
  }

  /** One step keeps exactly the active side's rule installed, and no new prefix has both. */
  lemma StepKeepsOneRule(c: Conf, init: set<Rule>, s: State, ip: string, tries: nat, ev: Event)
    requires OneRule(c, Apply(init, s.log), s.isMasterActual)
    ensures OneRule(c, Apply(init, Step(c, s, ip, tries, ev).0.log), Step(c, s, ip, tries, ev).0.isMasterActual)
    ensures s.log <= Step(c, s, ip, tries, ev).0.log
    ensures PrefixesSafe(c, init, Step(c, s, ip, tries, ev).0.log, |s.log|)
  {
    var s' := Step(c, s, ip, tries, ev).0;
    OneRuleHasNoTwo(c, Apply(init, s.log), s.isMasterActual);
    if s'.log == s.log {
      assert s.log[..|s.log|] == s.log;
    } else {
      var swap := SwapCalls(c, s.isMasterActual);
      SwapKeepsOneRule(c, Apply(init, s.log), s.isMasterActual);
      ApplyAppend(init, s.log, swap);
      ApplyAppend(init, s.log, swap[..1]);
      assert s'.log[..|s.log| + 2] == s'.log;
      assert s'.log[..|s.log| + 1] == s.log + swap[..1];
      assert s'.log[..|s.log|] == s.log;
      OneRuleHasNoTwo(c, Apply(init, s'.log), s'.isMasterActual);
    }
  }

  /** Safe prefixes of a log stay safe as later commands are appended. */
  lemma PrefixesSafeJoin(c: Conf, init: set<Rule>, a: seq<TcCall>, b: seq<TcCall>, d: seq<TcCall>, from: nat)
    requires a <= b <= d && PrefixesSafe(c, init, b, from) && PrefixesSafe(c, init, d, |b|)
    ensures PrefixesSafe(c, init, d, from)
  {
    forall k | from <= k <= |d| ensures NoTwoRules(c, Apply(init, d[..k])) {
      if k < |b| {
        assert d[..k] == b[..k];
      }
    }
  }

  /**
   * Whatever events the monitors see, if exactly one of the filter's rules was installed
   * before, exactly the active side's is afterwards, the log only grows, and at no point of
   * the new commands are both rules installed.
   */
  lemma {:induction false} RunKeepsOneRule(c: Conf, init: set<Rule>, s: State, ph: Phase, evs: seq<Event>)
    requires OneRule(c, Apply(init, s.log), s.isMasterActual)
    ensures OneRule(c, Apply(init, Run(c, s, ph, evs).0.log), Run(c, s, ph, evs).0.isMasterActual)
    ensures s.log <= Run(c, s, ph, evs).0.log
    ensures PrefixesSafe(c, init, Run(c, s, ph, evs).0.log, |s.log|)
    decreases |evs|, if ph.Starting? then 1 else 0
  {
    match ph
    case Starting =>
      var (s', ph') := Start(c, s);
      RunKeepsOneRule(c, init, s', ph', evs);
    case Exited(_) =>
      assert s.log[..|s.log|] == s.log;
      OneRuleHasNoTwo(c, Apply(init, s.log), s.isMasterActual);
    case Monitoring(ip, tries) =>
      if evs == [] {
        assert s.log[..|s.log|] == s.log;
        OneRuleHasNoTwo(c, Apply(init, s.log), s.isMasterActual);
      } else {
        var (s', ph') := Step(c, s, ip, tries, evs[0]);
        StepKeepsOneRule(c, init, s, ip, tries, evs[0]);
        RunKeepsOneRule(c, init, s', ph', evs[1..]);
        PrefixesSafeJoin(c, init, s.log, s'.log, Run(c, s', ph', evs[1..]).0.log, |s.log|);
      }
  }

  // ---------------------------------------------------------------------------------------
  // The service

  /** The filters of `db` under the keys `order`. */
  function Lookup(db: map<int, Filter>, order: seq<int>): (filters: seq<Filter>)
    requires forall i :: 0 <= i < |order| ==> order[i] in db
    ensures |filters| == |order| && forall i :: 0 <= i < |order| ==> filters[i] == db[order[i]]
  {
    seq(|order|, i requires 0 <= i < |order| => db[order[i]])
  }

  function ConfOf(f: Filter): Conf
    reads f`cfg
  {
    Conf(f.interfaceName, f.masterIP, f.slaveIP, f.dstIP, f.cfg)
  }

  /** The rule `configureFilters` adds for one filter, given the addresses that have stats. */
  function ProbeCalls(c: Conf, seen: set<string>): (calls: seq<TcCall>)
    ensures |calls| <= 1
    ensures calls != [] <==> c.masterIP !in seen && c.slaveIP !in seen
    ensures calls != [] ==> calls == [TcCall(Add, SideRule(c, true))]
  {
    if InitialSide(c.masterIP in seen, c.slaveIP in seen).1 then [TcCall(Add, SideRule(c, true))] else []
  }

  /**
   * The statistics cache reflects the kernel's table for this filter: a side's address has
   * stats exactly when that side's rule is installed (the stats regex reports `dst` addresses).
   */
  predicate StatsMatchRules(c: Conf, init: set<Rule>, seen: set<string>) {
    (c.masterIP in seen <==> SideRule(c, true) in init) && (c.slaveIP in seen <==> SideRule(c, false) in init)
  }

  /**
   * When at most one side has stats, `configureFilters` leaves exactly the chosen side's rule
   * installed: the state `RunKeepsOneRule` starts from.
   */
  lemma ConfigureEstablishesOneRule(c: Conf, init: set<Rule>, seen: set<string>)
    requires StatsMatchRules(c, init, seen)
    requires !(c.masterIP in seen && c.slaveIP in seen)
    ensures OneRule(c, Apply(init, ProbeCalls(c, seen)), c.slaveIP !in seen)
  {
    var calls := ProbeCalls(c, seen);
    if calls != [] {
      assert calls[..0] == [];
      assert Apply(init, calls) == init + {SideRule(c, true)};
    } else {
      assert Apply(init, calls) == init;
    }
  }

  /**
   * When both sides have stats, `configureFilters` picks the slave and adds nothing, so both
   * rules stay installed and the one-rule invariant does not hold from the start.
   */
  lemma BothSeenLeavesTwoRules(c: Conf, init: set<Rule>, seen: set<string>)
    requires StatsMatchRules(c, init, seen)
    requires c.masterIP in seen && c.slaveIP in seen && c.masterIP != c.slaveIP
    ensures ProbeCalls(c, seen) == [] && !(c.slaveIP !in seen)
    ensures !NoTwoRules(c, Apply(init, ProbeCalls(c, seen)))
  {
    assert Apply(init, ProbeCalls(c, seen)) == init;
  }

  /** The commands of `configureFilters` for filters with settings `confs`, in that order. */
  function ConfigureLog(confs: seq<Conf>, seen: set<string>): (log: seq<TcCall>)
    ensures |log| <= |confs|
  {
    if confs == [] then []
    else ConfigureLog(confs[..|confs| - 1], seen) + ProbeCalls(confs[|confs| - 1], seen)
  }

  /** `confs[j]` carries the addresses of `filters[j]`, for every position. */
  predicate SameAddresses(filters: seq<Filter>, confs: seq<Conf>) {
    |confs| == |filters| &&
    forall j :: 0 <= j < |filters| ==> confs[j].masterIP == filters[j].masterIP && confs[j].slaveIP == filters[j].slaveIP
  }

  /** The first `n` filters are on the side `configureFilters` chooses when `seen` have stats. */
  predicate SidesFixed(filters: seq<Filter>, n: nat, seen: set<string>)
    requires n <= |filters|
    reads filters`isMasterActual
  {
    forall j :: 0 <= j < n ==> filters[j].isMasterActual == (filters[j].slaveIP !in seen)
  }

  /** The settings of each filter in `filters`. */
  function ConfsOf(filters: seq<Filter>): (confs: seq<Conf>)
    reads filters`cfg
    ensures |confs| == |filters| && forall j :: 0 <= j < |filters| ==> confs[j] == ConfOf(filters[j])
  {
    if filters == [] then [] else ConfsOf(filters[..|filters| - 1]) + [ConfOf(filters[|filters| - 1])]
  }

  /** A side fixed for every filter of an iteration order is fixed for every filter of the map. */
  lemma SidesCoverDb(db: map<int, Filter>, order: seq<int>, seen: set<string>)
    requires Elements(order) == db.Keys && forall i :: 0 <= i < |order| ==> order[i] in db
    requires forall j :: 0 <= j < |order| ==> Lookup(db, order)[j].isMasterActual == (Lookup(db, order)[j].slaveIP !in seen)
    ensures forall k :: k in db ==> db[k].isMasterActual == (db[k].slaveIP !in seen)
  {
    forall k | k in db ensures db[k].isMasterActual == (db[k].slaveIP !in seen) {
      assert k in Elements(order);
      var j :| 0 <= j < |order| && order[j] == k;
      assert Lookup(db, order)[j] == db[k];
    }
  }

  class Service {
    /** The addresses that have a running monitor. */
    var workersQueue: set<string>
    /** Every `tc` command issued, in order. */
    ghost var log: seq<TcCall>
    const statManager: Statistic.Service

    /** `NewService` before it configures the filters (see `ConfigureFilters`). */
    constructor (statManager: Statistic.Service)
      ensures workersQueue == {} && log == [] && this.statManager == statManager
    {
      workersQueue := {};
      log := [];
      this.statManager := statManager;
    }

    ghost function View(f: Filter): State
      reads this, f
    {
      State(f.bytes, f.isMasterActual, workersQueue, log)
    }

    /** `tc filter add ...` for one rule; the vector run is `Args(TcCall(Add, ...))`. */
    method Add(interfaceName: string, priority: int, ip: string, route: string)
      modifies this`log
      ensures log == old(log) + [TcCall(Tc.Add, Rule(interfaceName, priority, ip, route))]
    {
      var args := Args(TcCall(Tc.Add, Rule(interfaceName, priority, ip, route)));
      log := log + [TcCall(Tc.Add, Rule(interfaceName, priority, ip, route))];
    }

    /** `tc filter delete ...` for one rule; the vector run is `Args(TcCall(Delete, ...))`. */
    method Del(interfaceName: string, priority: int, ip: string, route: string)
      modifies this`log
      ensures log == old(log) + [TcCall(Delete, Rule(interfaceName, priority, ip, route))]
    {
      var args := Args(TcCall(Delete, Rule(interfaceName, priority, ip, route)));
      log := log + [TcCall(Delete, Rule(interfaceName, priority, ip, route))];
    }

    method AddIP(ip: string)
      modifies this`workersQueue
      ensures workersQueue == old(workersQueue) + {ip}
    {
      workersQueue := workersQueue + {ip};
    }

    method DeleteIP(ip: string)
      modifies this`workersQueue
      ensures workersQueue == old(workersQueue) - {ip}
    {
      workersQueue := workersQueue - {ip};
    }

    /** Whether each side's address has a cached byte count, master first. */
    method IsExistFilters(data: Filter) returns (isMaster: bool, isSlave: bool)
      ensures isMaster <==> data.masterIP in statManager.cache.items
      ensures isSlave <==> data.slaveIP in statManager.cache.items
    {
      var masterBytes := statManager.GetBytesByIP(data.masterIP);
      var slaveBytes := statManager.GetBytesByIP(data.slaveIP);
      isMaster, isSlave := masterBytes.Ok?, slaveBytes.Ok?;
    }

    /**
     * One filter of `configureFilters`: set its side from the probe, adding master's rule when
     * neither side has stats. `c` is the record's fields as this iteration reads them.
     */
    method ConfigureFilter(data: Filter, c: Conf)
      requires c.masterIP == data.masterIP && c.slaveIP == data.slaveIP
      modifies this`log, data`isMasterActual
      ensures data.isMasterActual == (data.slaveIP !in statManager.cache.items)
      ensures log == old(log) + ProbeCalls(c, statManager.cache.items.Keys)
    {
      var isMaster, isSlave := IsExistFilters(data);
      if isSlave {
        data.isMasterActual := false;
      } else if isMaster {
        data.isMasterActual := true;
      } else {
        data.isMasterActual := true;
        Add(c.iface, c.cfg.masterPrio, c.masterIP, c.dstIP);
      }
    }

    /**
     * `configureFilters`: every filter of `db`, in the map's (unspecified) order, goes through
     * `ConfigureFilter`. Returns the order, which is also the order in which a monitor is
     * spawned for every filter.
     */
    method ConfigureFilters(db: map<int, Filter>) returns (order: seq<int>)
      modifies this`log, db.Values`isMasterActual
      ensures |order| == |db.Keys| && Elements(order) == db.Keys && Distinct(order)
      ensures forall k :: k in db ==> db[k].isMasterActual == (db[k].slaveIP !in statManager.cache.items)
      ensures log == old(log) + ConfigureLog(ConfsOf(Lookup(db, order)), statManager.cache.items.Keys)
    {
      order := MapOrder(db.Keys);
      ConfigureInOrder(db, order);
    }

    /** `configureFilters` once the iteration order `order` of `db` is fixed. */
    method ConfigureInOrder(db: map<int, Filter>, order: seq<int>)
      requires Elements(order) == db.Keys && forall i :: 0 <= i < |order| ==> order[i] in db
      modifies this`log, db.Values`isMasterActual
      ensures forall k :: k in db ==> db[k].isMasterActual == (db[k].slaveIP !in statManager.cache.items)
      ensures log == old(log) + ConfigureLog(ConfsOf(Lookup(db, order)), statManager.cache.items.Keys)
    {
      var filters := Lookup(db, order);
      assert forall f :: f in filters ==> f in db.Values;
      ConfigureSeq(filters);
      SidesCoverDb(db, order, statManager.cache.items.Keys);
    }

    /** The loop of `configureFilters` over `filters`, starting from a snapshot of their settings. */
    method ConfigureSeq(filters: seq<Filter>)
      modifies this`log, filters`isMasterActual
      ensures forall j :: 0 <= j < |filters| ==> filters[j].isMasterActual == (filters[j].slaveIP !in statManager.cache.items)
      ensures log == old(log) + ConfigureLog(ConfsOf(filters), statManager.cache.items.Keys)
    {
      var confs := ConfsOf(filters);
      ConfigureAll(filters, confs);
    }

    /** The loop of `configureFilters` over the filters in iteration order, with their fields `confs`. */
    method ConfigureAll(filters: seq<Filter>, confs: seq<Conf>)
      requires SameAddresses(filters, confs)
      modifies this`log, filters`isMasterActual
      ensures SidesFixed(filters, |filters|, statManager.cache.items.Keys)
      ensures log == old(log) + ConfigureLog(confs, statManager.cache.items.Keys)
    {
      ghost var seen := statManager.cache.items.Keys;
      ghost var log0 := log;
      for i := 0 to |filters|
        invariant seen == statManager.cache.items.Keys
        invariant SidesFixed(filters, i, seen)
        invariant log == log0 + ConfigureLog(confs[..i], seen)
      {
        ConfigureNext(filters, confs, i, seen, log0);
      }
      assert confs[..|filters|] == confs;
    }

    /** One turn of the loop of `configureFilters`, at position `i`. */
    method ConfigureNext(filters: seq<Filter>, confs: seq<Conf>, i: nat, ghost seen: set<string>, ghost log0: seq<TcCall>)
      requires SameAddresses(filters, confs) && i < |filters|
      requires seen == statManager.cache.items.Keys
      requires SidesFixed(filters, i, seen)
      requires log == log0 + ConfigureLog(confs[..i], seen)
      modifies this`log, (filters[i] as Filter)`isMasterActual
      ensures SidesFixed(filters, i + 1, seen)
      ensures log == log0 + ConfigureLog(confs[..i + 1], seen)
    {
      var data := filters[i];
      ConfigureFilter(data, confs[i]);
      assert confs[..i + 1][..i] == confs[..i];
      forall j | 0 <= j <= i ensures filters[j].isMasterActual == (filters[j].slaveIP !in seen) {
        if filters[j] != data {
          assert filters[j].isMasterActual == old(filters[j].isMasterActual);
        }
      }
    }

    /**
     * `TurnOffAutoSwitch`: the filter handed to whichever monitor receives it, which compares
     * that filter's active address with the in-flight set.
     */
    method TurnOffAutoSwitch(f: Filter) returns (ev: Event)
      ensures ev == TurnOff(ActiveIP(ConfOf(f), f.isMasterActual))
    {
      var ip := f.GetActualIP();
      ev := TurnOff(ip);
    }

    /** The swap: delete the active side's rule, then add the other side's. The side is not flipped here. */
    method ChangeFilter(f: Filter)
      modifies this`log
      ensures log == old(log) + SwapCalls(ConfOf(f), f.isMasterActual)
    {
      var actualIP, newIP: string;
      var actualPrio, newPrio: int;
      if f.isMasterActual {
        actualIP, actualPrio := f.masterIP, f.cfg.masterPrio;
        newIP, newPrio := f.slaveIP, f.cfg.slavePrio;
      } else {
        actualIP, actualPrio := f.slaveIP, f.cfg.slavePrio;
        newIP, newPrio := f.masterIP, f.cfg.masterPrio;
      }
      Del(f.interfaceName, actualPrio, actualIP, f.dstIP);
      Add(f.interfaceName, newPrio, newIP, f.dstIP);
    }

    /**
     * `AutoSwitch(f)` and the monitors it respawns after each failover, fed `events` in
     * order. Returns where the last monitor is when it exits or the events run out.
     */
    method AutoSwitch(f: Filter, events: seq<Event>) returns (ph: Phase)
      modifies this`workersQueue, this`log, f`bytes, f`isMasterActual
      ensures (View(f), ph) == Run(ConfOf(f), old(View(f)), Starting, events)
    {
      ghost var c := ConfOf(f);
      ph := Starting;
      var i := 0;
      while true
        invariant 0 <= i <= |events|
        invariant ConfOf(f) == c
        invariant Run(c, View(f), ph, events[i..]) == Run(c, old(View(f)), Starting, events)
        decreases |events| - i, if ph.Starting? then 1 else 0
      {
        if ph.Starting? {
          var actualIP := f.GetActualIP();
          if actualIP in workersQueue {
            ph := Exited(AlreadyRunning);
          } else {
            AddIP(actualIP);
            ph := Monitoring(actualIP, 0);
          }
        } else if ph.Exited? || i == |events| {
          break;
        } else {
          var actualIP, tries := ph.ip, ph.tries;
          ghost var before := View(f);
          assert events[i..][0] == events[i] && events[i..][1..] == events[i + 1..];
          var ev := events[i];
          i := i + 1;
          match ev {
            case TurnOff(ip) =>
              if ip in workersQueue {
                DeleteIP(ip);
                ph := Exited(TurnedOff);
              }
            case Tick(sample) =>
              if !f.cfg.autoSwitch {
                ph := Exited(Disabled);
              } else if sample.None? {
                ph := Exited(LookupFailed);
              } else if f.bytes.None? {
                f.SetBytes(sample);
              } else if f.bytes.value == sample.value {
                tries := tries + 1;
                if tries >= f.cfg.tries {
                  f.SetBytes(None);
                  ChangeFilter(f);
                  f.isMasterActual := !f.isMasterActual;
                  DeleteIP(actualIP);
                  ph := Starting;
                } else {
                  ph := Monitoring(actualIP, tries);
                }
              } else {
                tries := 0;
                f.SetBytes(sample);
                ph := Monitoring(actualIP, tries);
              }
          }

        }
      }
      assert events[i..] == [] || ph.Exited?;
    }
  }
}
