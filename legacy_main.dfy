/**
 * The older, packet-driven switcher of the root `main.go`: at start-up every configured pair is
 * reset to its master rule, then one worker per pair watches the captured packets and, once the
 * slave's stream has been seen often enough without the master's, swaps the pair to the slave
 * for good. Packets are reduced to whether they carry IPv4 and, if so, their destination text.
 */
module LegacyMain {
  import opened Tc
  import opened Listener
  import Settings
  import Switcher
  import Multiswitcher
  import FilterModel

  /** A pair's rules as the switch engine names them; neither the poll period nor the side is used here. */
  function PairConf(iface: string, fil: Settings.Filter): (c: Switcher.Conf)
    ensures Switcher.SideRule(c, true) == Rule(iface, fil.master.priority, fil.master.ip, fil.route)
    ensures Switcher.SideRule(c, false) == Rule(iface, fil.slave.priority, fil.slave.ip, fil.route)
  {
    Switcher.Conf(iface, fil.master.ip, fil.slave.ip, fil.route,
                  FilterModel.Cfg(fil.switchTries, 0, fil.master.priority, fil.slave.priority, fil.autoSwitch))
  }

  function PairConfs(iface: string, filters: seq<Settings.Filter>): (confs: seq<Switcher.Conf>)
    ensures |confs| == |filters| && forall i :: 0 <= i < |filters| ==> confs[i] == PairConf(iface, filters[i])
  {
    seq(|filters|, i requires 0 <= i < |filters| => PairConf(iface, filters[i]))
  }

  /**
   * The start-up loop over the configured pairs, in configuration order: delete the master
   * rule, delete the slave rule, add the master rule, on the captured interface `iface`.
   */
  method InstallMasters(iface: string, filters: seq<Settings.Filter>) returns (log: seq<TcCall>)
    ensures log == Multiswitcher.StartupLog(PairConfs(iface, filters))
  {
    ghost var confs := PairConfs(iface, filters);
    log := [];
    for i := 0 to |filters|
      invariant log == Multiswitcher.StartupLog(confs[..i])
    {
      var filter := filters[i];
      assert confs[..i + 1][..i] == confs[..i];
      log := log + [DelFilter(iface, filter.master.priority, filter.master.ip, filter.route)];
      log := log + [DelFilter(iface, filter.slave.priority, filter.slave.ip, filter.route)];
      log := log + [AddFilter(iface, filter.master.priority, filter.master.ip, filter.route)];
    }
    assert confs[..|filters|] == confs;
  }

  /** `AddFilter`: the `tc filter add` command, run as `Args` of the returned call. */
  function AddFilter(interfaceName: string, priority: int, ip: string, route: string): (call: TcCall)
    ensures Args(call)[2] == "add" && Args(call)[4] == interfaceName && Args(call)[15] == ip && Args(call)[20] == route
  {
    TcCall(Add, Rule(interfaceName, priority, ip, route))
  }

  /** `DelFilter`: the same vector as `AddFilter` with the verb `delete`. */
  function DelFilter(interfaceName: string, priority: int, ip: string, route: string): (call: TcCall)
    ensures Args(call)[2] == "delete"
    ensures forall i :: 0 <= i < 21 && i != 2 ==> Args(call)[i] == Args(AddFilter(interfaceName, priority, ip, route))[i]
  {
    AddDeleteDifferOnlyInVerb(Rule(interfaceName, priority, ip, route));
    TcCall(Delete, Rule(interfaceName, priority, ip, route))
  }

  /** Whatever was installed, the start-up commands leave each pair on its master rule alone. */
  lemma InstallMastersResets(init: set<Rule>, iface: string, filters: seq<Settings.Filter>)
    requires Multiswitcher.SidesApart(PairConfs(iface, filters))
    ensures forall i :: 0 <= i < |filters| ==>
      Switcher.OneRule(PairConf(iface, filters[i]), Apply(init, Multiswitcher.StartupLog(PairConfs(iface, filters))), true)
  {
    Multiswitcher.StartupInstallsMasters(init, PairConfs(iface, filters));
  }

  /** A worker's two locals. */
  datatype Worker = Worker(tries: int, isSlaveActual: bool)

  /** The packet counts towards a swap: it goes to the slave's address and not the master's. */
  predicate SlaveOnly(fil: Settings.Filter, p: Packet) {
    p.IPv4? && p.dst != fil.master.ip && p.dst == fil.slave.ip
  }

  /**
   * One captured packet, and the commands it makes the worker run: a slave-only packet raises
   * the counter by one, another IPv4 packet resets it and anything else leaves the worker as it
   * was; commands run only for the packet that takes the counter past `SwitchTries`.
   */
  function Step(iface: string, fil: Settings.Filter, w: Worker, p: Packet): (r: (Worker, seq<TcCall>))
    ensures SlaveOnly(fil, p) ==> r.0.tries == w.tries + 1
    ensures p.IPv4? && !SlaveOnly(fil, p) ==> r == (Worker(0, w.isSlaveActual), [])
    ensures p.NonIPv4? ==> r == (w, [])
    ensures r.1 != [] <==> SlaveOnly(fil, p) && fil.autoSwitch && w.tries + 1 > fil.switchTries && !w.isSlaveActual
  {
    if p.NonIPv4? then (w, [])
    else if SlaveOnly(fil, p) then
      var tries := w.tries + 1;
      if fil.autoSwitch && tries > fil.switchTries && !w.isSlaveActual then
        (Worker(tries, true), Switcher.SwapCalls(PairConf(iface, fil), true))
      else (Worker(tries, w.isSlaveActual), [])
    else (Worker(0, w.isSlaveActual), [])
  }

  /** A worker fed `packets` in order. */
  function Run(iface: string, fil: Settings.Filter, w: Worker, packets: seq<Packet>): (r: (seq<TcCall>, Worker))
    ensures w.isSlaveActual ==> r.1.isSlaveActual && r.0 == []
    ensures r.1.isSlaveActual == (w.isSlaveActual || r.0 != [])
  {
    if packets == [] then ([], w)
    else
      var before := Run(iface, fil, w, packets[..|packets| - 1]);
      var after := Step(iface, fil, before.1, packets[|packets| - 1]);
      (before.0 + after.1, after.0)
  }

  /**
   * A worker swaps at most once: the commands it runs are either none or the one swap to the
   * slave, and it has swapped exactly when it ends on the slave side.
   */
  lemma {:induction false} SwapsAtMostOnce(iface: string, fil: Settings.Filter, w: Worker, packets: seq<Packet>)
    ensures w.isSlaveActual ==> Run(iface, fil, w, packets).0 == [] && Run(iface, fil, w, packets).1.isSlaveActual
    ensures !w.isSlaveActual ==>
      (Run(iface, fil, w, packets).0 == [] <==> !Run(iface, fil, w, packets).1.isSlaveActual)
    ensures Run(iface, fil, w, packets).0 == [] || Run(iface, fil, w, packets).0 == Switcher.SwapCalls(PairConf(iface, fil), true)
  {
    if packets != [] {
      SwapsAtMostOnce(iface, fil, w, packets[..|packets| - 1]);
    }
  }

  /** `n` packets to the slave alone. */
  function SlaveStream(fil: Settings.Filter, n: nat): (packets: seq<Packet>)
    ensures |packets| == n
  {
    seq(n, _ => IPv4(fil.slave.ip))
  }

  /**
   * From a fresh worker, `n` slave-only packets leave the counter at `n`; the switch to the
   * slave happens exactly when auto-switching is on and `n` exceeds the configured tries.
   */
  lemma {:induction false} SlaveStreamSwaps(iface: string, fil: Settings.Filter, n: nat)
    requires fil.master.ip != fil.slave.ip
    ensures Run(iface, fil, Worker(0, false), SlaveStream(fil, n)).1.tries == n
    ensures Run(iface, fil, Worker(0, false), SlaveStream(fil, n)).1.isSlaveActual <==>
      fil.autoSwitch && n >= 1 && n > fil.switchTries
  {
    if n > 0 {
      assert SlaveStream(fil, n)[..n - 1] == SlaveStream(fil, n - 1);
      SlaveStreamSwaps(iface, fil, n - 1);
    }
  }

  /** A worker that starts on the master rule alone always leaves exactly its current side's rule. */
  lemma WorkerKeepsOneRule(init: set<Rule>, iface: string, fil: Settings.Filter, packets: seq<Packet>)
    requires Switcher.OneRule(PairConf(iface, fil), init, true)
    ensures Switcher.OneRule(PairConf(iface, fil), Apply(init, Run(iface, fil, Worker(0, false), packets).0),
                             !Run(iface, fil, Worker(0, false), packets).1.isSlaveActual)
  {
    SwapsAtMostOnce(iface, fil, Worker(0, false), packets);
    if Run(iface, fil, Worker(0, false), packets).0 != [] {
      Switcher.SwapKeepsOneRule(PairConf(iface, fil), init, true);
    }
  }

  /** The worker goroutine's loop over the packets it receives. */
  method RunWorker(iface: string, fil: Settings.Filter, packets: seq<Packet>)
    returns (log: seq<TcCall>, tries: int, isSlaveActual: bool)
    ensures (log, Worker(tries, isSlaveActual)) == Run(iface, fil, Worker(0, false), packets)
  {
    log, tries, isSlaveActual := [], 0, false;
    for i := 0 to |packets|
      invariant (log, Worker(tries, isSlaveActual)) == Run(iface, fil, Worker(0, false), packets[..i])
    {
      assert packets[..i + 1][..i] == packets[..i];
      ghost var next := Step(iface, fil, Worker(tries, isSlaveActual), packets[i]);
      assert Run(iface, fil, Worker(0, false), packets[..i + 1]) == (log + next.1, next.0);
      assert log + [] == log;
      match packets[i] {
        case NonIPv4 =>
        case IPv4(dst) =>
          var isMaster := dst == fil.master.ip;
          var isSlave := dst == fil.slave.ip;
          if !isMaster && isSlave {
            tries := tries + 1;
            if fil.autoSwitch && tries > fil.switchTries && !isSlaveActual {
              assert [DelFilter(iface, fil.master.priority, fil.master.ip, fil.route),
                      AddFilter(iface, fil.slave.priority, fil.slave.ip, fil.route)] == Switcher.SwapCalls(PairConf(iface, fil), true);
              assert log + [DelFilter(iface, fil.master.priority, fil.master.ip, fil.route)]
                + [AddFilter(iface, fil.slave.priority, fil.slave.ip, fil.route)] == log + Switcher.SwapCalls(PairConf(iface, fil), true);
              log := log + [DelFilter(iface, fil.master.priority, fil.master.ip, fil.route)];
              log := log + [AddFilter(iface, fil.slave.priority, fil.slave.ip, fil.route)];
              isSlaveActual := true;
            }
          } else {
            tries := 0;
          }
      }
    }
    assert packets[..|packets|] == packets;
  }
}
