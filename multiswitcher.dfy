/**
 * The start-up of `cmd/multiswitcher.go`: building the shared filter records from the
 * configuration, and resetting each pair's `tc` rules to the master side before the monitors
 * start.
 */
module Multiswitcher {
  import opened Wrappers
  import opened FilterModel
  import opened Tc
  import opened GoMaps
  import Settings
  import Switcher

  /** The record `MakeLocalDB` builds from the `i`-th configured pair. */
  predicate Built(f: Filter, cfg: Settings.Config, i: nat)
    requires i < |cfg.filters|
    reads f
  {
    var s := cfg.filters[i];
    f.id == i + 1 && f.interfaceName == cfg.iface && f.masterIP == s.master.ip && f.slaveIP == s.slave.ip
    && f.dstIP == s.route && f.isMasterActual && f.bytes == None && !f.isIgmpOn
    && f.cfg == Cfg(s.switchTries, cfg.statFrequencySec, s.master.priority, s.slave.priority, s.autoSwitch)
  }

  /**
   * `MakeLocalDB`: one new record per configured pair, under the keys 1 to n in configuration
   * order, each starting on the master side with no byte baseline.
   */
  method MakeLocalDB(cfg: Settings.Config) returns (info: map<int, Filter>)
    ensures forall k :: 1 <= k <= |cfg.filters| ==> k in info
    ensures forall k :: k in info ==> 1 <= k <= |cfg.filters| && fresh(info[k]) && Built(info[k], cfg, k - 1)
  {
    info := map[];
    for i := 0 to |cfg.filters|
      invariant forall k :: 1 <= k <= i ==> k in info
      invariant forall k :: k in info ==> 1 <= k <= i && fresh(info[k]) && Built(info[k], cfg, k - 1)
    {
      var s := cfg.filters[i];
      var f := new Filter(i + 1, cfg.iface, s.master.ip, s.slave.ip, s.route, true, None,
                          Cfg(s.switchTries, cfg.statFrequencySec, s.master.priority, s.slave.priority, s.autoSwitch));
      info := info[i + 1 := f];
    }
  }

  /** Records built from different pairs are different objects, so no two keys share a record. */
  lemma BuiltRecordsDistinct(cfg: Settings.Config, info: map<int, Filter>, i: nat, j: nat)
    requires i < |cfg.filters| && j < |cfg.filters| && i != j
    requires i + 1 in info && j + 1 in info && Built(info[i + 1], cfg, i) && Built(info[j + 1], cfg, j)
    ensures info[i + 1] != info[j + 1]
  {
  }

  /** The three commands for one pair: delete the master rule, delete the slave rule, add the master rule. */
  function StartupCalls(c: Switcher.Conf): (calls: seq<TcCall>)
    ensures |calls| == 3 && calls[2] == TcCall(Add, Switcher.SideRule(c, true))
  {
    [TcCall(Delete, Switcher.SideRule(c, true)), TcCall(Delete, Switcher.SideRule(c, false)),
     TcCall(Add, Switcher.SideRule(c, true))]
  }

  /** The start-up commands for the pairs `confs`, in that order. */
  function StartupLog(confs: seq<Switcher.Conf>): (log: seq<TcCall>)
    ensures |log| == 3 * |confs|
  {
    if confs == [] then [] else StartupLog(confs[..|confs| - 1]) + StartupCalls(confs[|confs| - 1])
  }

  /** No pair's slave rule is also some pair's master rule. */
  predicate SidesApart(confs: seq<Switcher.Conf>) {
    forall j, k :: 0 <= j < |confs| && 0 <= k < |confs| ==>
      Switcher.SideRule(confs[j], false) != Switcher.SideRule(confs[k], true)
  }

  /**
   * Whatever rules were installed before, the start-up commands leave every pair with its
   * master rule installed and its slave rule removed.
   */
  lemma {:induction false} StartupInstallsMasters(init: set<Rule>, confs: seq<Switcher.Conf>)
    requires SidesApart(confs)
    ensures forall j :: 0 <= j < |confs| ==> Switcher.OneRule(confs[j], Apply(init, StartupLog(confs)), true)
  {
    if confs != [] {
      var n := |confs| - 1;
      var prefix := confs[..n];
      assert SidesApart(prefix) by {
        forall j, k | 0 <= j < n && 0 <= k < n
          ensures Switcher.SideRule(prefix[j], false) != Switcher.SideRule(prefix[k], true)
        {
          assert prefix[j] == confs[j] && prefix[k] == confs[k];
        }
      }
      StartupInstallsMasters(init, prefix);
      var t := Apply(init, StartupLog(prefix));
      ApplyAppend(init, StartupLog(prefix), StartupCalls(confs[n]));
      var ml, sl := Switcher.SideRule(confs[n], true), Switcher.SideRule(confs[n], false);
      var calls := StartupCalls(confs[n]);
      assert calls[..2] == [calls[0], calls[1]] && calls[..2][..1] == [calls[0]] && calls[..2][..1][..0] == [];
      assert Apply(t, calls[..2][..1]) == t - {ml};
      assert Apply(t, calls[..2]) == t - {ml} - {sl};
      assert Apply(t, calls) == t - {ml} - {sl} + {ml};
      forall j | 0 <= j < |confs| ensures Switcher.OneRule(confs[j], Apply(t, calls), true) {
        if j < n {
          assert prefix[j] == confs[j];
          assert Switcher.OneRule(confs[j], t, true);
          assert Switcher.SideRule(confs[j], true) != sl && Switcher.SideRule(confs[j], false) != ml;
        } else {
          assert ml != sl;
        }
      }
    }
  }

  /** The records among `filters` whose settings in `confs` have auto-switching on, in order. */
  function AutoSwitching(filters: seq<Filter>, confs: seq<Switcher.Conf>): (started: seq<Filter>)
    requires |confs| == |filters|
    ensures |started| <= |filters|
    ensures forall f :: f in started ==> f in filters
  {
    if filters == [] then []
    else
      var n := |filters| - 1;
      AutoSwitching(filters[..n], confs[..n]) + (if confs[n].cfg.autoSwitch then [filters[n]] else [])
  }

  /** A record of the db gets a monitor exactly when its auto-switch flag is on. */
  lemma {:induction false} AutoSwitchingExactly(filters: seq<Filter>, confs: seq<Switcher.Conf>, j: nat)
    requires |confs| == |filters| && j < |filters|
    requires forall i, k :: 0 <= i < |filters| && 0 <= k < |filters| && filters[i] == filters[k] ==> confs[i] == confs[k]
    ensures filters[j] in AutoSwitching(filters, confs) <==> confs[j].cfg.autoSwitch
  {
    var n := |filters| - 1;
    var prefix := AutoSwitching(filters[..n], confs[..n]);
    if j < n {
      assert filters[..n][j] == filters[j] && confs[..n][j] == confs[j];
      AutoSwitchingExactly(filters[..n], confs[..n], j);
      if filters[n] == filters[j] {
        assert confs[n] == confs[j];
      }
    } else if filters[n] in prefix {
      var i :| 0 <= i < n && filters[..n][i] == filters[n];
      assert filters[i] == filters[n];
      AutoSwitchingExactly(filters[..n], confs[..n], i);
    }
  }

  /**
   * `CreateFilters`: for each record, in the map's iteration order `order`, the three start-up
   * commands; the records whose monitor is started are returned in the same order.
   */
  method CreateFilters(db: map<int, Filter>, filter: Switcher.Service) returns (order: seq<int>, started: seq<Filter>)
    modifies filter`log
    ensures Elements(order) == db.Keys && Distinct(order) && forall i :: 0 <= i < |order| ==> order[i] in db
    ensures filter.log == old(filter.log) + StartupLog(Switcher.ConfsOf(Switcher.Lookup(db, order)))
    ensures started == AutoSwitching(Switcher.Lookup(db, order), Switcher.ConfsOf(Switcher.Lookup(db, order)))
  {
    order := MapOrder(db.Keys);
    var filters := Switcher.Lookup(db, order);
    var confs := Switcher.ConfsOf(filters);
    started := CreateAll(filters, confs, filter);
    assert Switcher.ConfsOf(filters) == confs;
  }

  /** The loop of `CreateFilters` over the records in iteration order, with their fields `confs`. */
  method CreateAll(filters: seq<Filter>, confs: seq<Switcher.Conf>, filter: Switcher.Service) returns (started: seq<Filter>)
    requires |confs| == |filters|
    modifies filter`log
    ensures filter.log == old(filter.log) + StartupLog(confs)
    ensures started == AutoSwitching(filters, confs)
  {
    ghost var log0 := filter.log;
    started := [];
    for i := 0 to |filters|
      invariant filter.log == log0 + StartupLog(confs[..i])
      invariant started == AutoSwitching(filters[..i], confs[..i])
    {
      started := CreateNext(filters, confs, i, filter, started, log0);
    }
    assert confs[..|filters|] == confs && filters[..|filters|] == filters;
  }

  /** One turn of the loop of `CreateFilters`, at position `i`. */
  method CreateNext(filters: seq<Filter>, confs: seq<Switcher.Conf>, i: nat, filter: Switcher.Service,
                    started: seq<Filter>, ghost log0: seq<TcCall>) returns (started': seq<Filter>)
    requires i < |confs| == |filters|
    requires filter.log == log0 + StartupLog(confs[..i])
    requires started == AutoSwitching(filters[..i], confs[..i])
    modifies filter`log
    ensures filter.log == log0 + StartupLog(confs[..i + 1])
    ensures started' == AutoSwitching(filters[..i + 1], confs[..i + 1])
  {
    assert confs[..i + 1][..i] == confs[..i] && filters[..i + 1][..i] == filters[..i];
    var c := confs[i];
    CreateOne(c, filter);
    started' := started;
    if c.cfg.autoSwitch {
      started' := started + [filters[i]];
    }
  }

  /** The three commands for one record, issued through the switch engine's `Del` and `Add`. */
  method CreateOne(c: Switcher.Conf, filter: Switcher.Service)
    modifies filter`log
    ensures filter.log == old(filter.log) + StartupCalls(c)
  {
    filter.Del(c.iface, c.cfg.masterPrio, c.masterIP, c.dstIP);
    filter.Del(c.iface, c.cfg.slavePrio, c.slaveIP, c.dstIP);
    filter.Add(c.iface, c.cfg.masterPrio, c.masterIP, c.dstIP);
  }
}
