/**
 * The HTTP control plane of `internal/api`: each handler's parameter checks and the status
 * they answer with, and the state change of the handlers that act. Routing, JSON bodies and
 * gin's context are left out: a handler takes its raw path parameters and returns its status
 * together with what it changed or started.
 */
module Api {
  import opened Wrappers
  import opened FilterModel
  import opened GoMaps
  import Decimal
  import Switcher
  import Checksum
  import Igmp

  const StatusOK := 200
  const StatusBadRequest := 400
  const StatusNotFound := 404

  /** `strings.ToLower` on ASCII letters; other characters are kept. */
  function Lower(s: string): (r: string)
    ensures |r| == |s|
    ensures forall i :: 0 <= i < |s| ==> r[i] == (if 'A' <= s[i] <= 'Z' then (s[i] as int + 32) as char else s[i])
  {
    if s == [] then [] else
      var c := s[0];
      [if 'A' <= c <= 'Z' then (c as int + 32) as char else c] + Lower(s[1..])
  }

  /** The `on`/`off` switch of `setAutoSwitch`, `turnOnIgmp` and `turnOnIgmpById`. */
  function OnOff(raw: string): (r: Option<bool>)
    ensures r.Some? ==> |raw| == (if r.value then 2 else 3)
  {
    var v := Lower(raw);
    if v == "on" then Some(true) else if v == "off" then Some(false) else None
  }

  /** The accepted spellings, character by character: any mix of cases of `on` and `off`. */
  lemma OnOffSpellings(raw: string)
    ensures OnOff(raw) == Some(true) <==> |raw| == 2 && raw[0] in "oO" && raw[1] in "nN"
    ensures OnOff(raw) == Some(false) <==> |raw| == 3 && raw[0] in "oO" && raw[1] in "fF" && raw[2] in "fF"
  {
    var v := Lower(raw);
    if |raw| == 2 {
      assert v == "on" <==> v[0] == 'o' && v[1] == 'n';
    }
    if |raw| == 3 {
      assert v == "off" <==> v[0] == 'o' && v[1] == 'f' && v[2] == 'f';
    }
  }

  /** The side named in `/switch/:id/:name`: `Some(true)` for master, `Some(false)` for slave. */
  function SideName(raw: string): (r: Option<bool>)
    ensures r.Some? ==> |raw| == (if r.value then 6 else 5)
  {
    var v := Lower(raw);
    if v == "master" then Some(true) else if v == "slave" then Some(false) else None
  }

  /**
   * `switchFilter`'s checks, in order, against the current side of each filter: the id must be
   * an integer, the name master or slave, the id known, and the named side not already active.
   * `Ok(id)` means the handler goes on to switch that filter.
   */
  function SwitchCheck(rawId: string, rawName: string, sides: map<int, bool>): (r: Result<int, int>)
    ensures Decimal.Atoi(rawId).None? ==> r == Err(StatusBadRequest)
    ensures Decimal.Atoi(rawId).Some? && SideName(rawName).None? ==> r == Err(StatusBadRequest)
    ensures Decimal.Atoi(rawId).Some? && SideName(rawName).Some? && Decimal.Atoi(rawId).value !in sides ==>
      r == Err(StatusNotFound)
    ensures r.Ok? <==>
      Decimal.Atoi(rawId).Some? && SideName(rawName).Some? && Decimal.Atoi(rawId).value in sides &&
      sides[Decimal.Atoi(rawId).value] != SideName(rawName).value
    ensures r.Ok? ==> r.value == Decimal.Atoi(rawId).value
  {
    match Decimal.Atoi(rawId)
    case None => Err(StatusBadRequest)
    case Some(id) =>
      match SideName(rawName)
      case None => Err(StatusBadRequest)
      case Some(wantMaster) =>
        if id !in sides then Err(StatusNotFound)
        else if sides[id] == wantMaster then Err(StatusBadRequest)
        else Ok(id)
  }

  /** The same switch request made twice in a row: the second finds the side already active. */
  lemma SwitchTwiceRejected(rawId: string, rawName: string, sides: map<int, bool>)
    requires SwitchCheck(rawId, rawName, sides).Ok?
    ensures var id := SwitchCheck(rawId, rawName, sides).value;
      SwitchCheck(rawId, rawName, sides[id := !sides[id]]) == Err(StatusBadRequest)
  {
  }

  /** A request for the side already in use never reaches `ChangeFilter`, whatever the id's spelling. */
  lemma SwitchToActiveSideRejected(rawId: string, rawName: string, sides: map<int, bool>)
    requires Decimal.Atoi(rawId).Some? && Decimal.Atoi(rawId).value in sides
    requires SideName(rawName) == Some(sides[Decimal.Atoi(rawId).value])
    ensures SwitchCheck(rawId, rawName, sides) == Err(StatusBadRequest)
  {
  }

  /**
   * `setAutoSwitch`'s checks, in order: an integer id, then on/off, then a known id. `Ok((id, on))`
   * means the handler sets the flag of `id` to `on`.
   */
  function AutoSwitchCheck(rawId: string, rawVal: string, ids: set<int>): (r: Result<(int, bool), int>)
    ensures Decimal.Atoi(rawId).None? ==> r == Err(StatusBadRequest)
    ensures Decimal.Atoi(rawId).Some? && OnOff(rawVal).None? ==> r == Err(StatusBadRequest)
    ensures r == Err(StatusNotFound) <==> Decimal.Atoi(rawId).Some? && OnOff(rawVal).Some? && Decimal.Atoi(rawId).value !in ids
    ensures r.Ok? <==> Decimal.Atoi(rawId).Some? && OnOff(rawVal).Some? && Decimal.Atoi(rawId).value in ids
    ensures r.Ok? ==> r.value == (Decimal.Atoi(rawId).value, OnOff(rawVal).value)
  {
    match Decimal.Atoi(rawId)
    case None => Err(StatusBadRequest)
    case Some(id) =>
      match OnOff(rawVal)
      case None => Err(StatusBadRequest)
      case Some(on) => if id !in ids then Err(StatusNotFound) else Ok((id, on))
  }

  /** A bad `val` is reported as 400 even for an id that does not exist. */
  lemma BadValueBeforeUnknownId(rawId: string, rawVal: string, ids: set<int>)
    requires Decimal.Atoi(rawId).Some? && Decimal.Atoi(rawId).value !in ids
    ensures AutoSwitchCheck(rawId, rawVal, ids) == Err(StatusNotFound) <==> OnOff(rawVal).Some?
    ensures AutoSwitchCheck(rawId, rawVal, ids) == Err(StatusBadRequest) <==> OnOff(rawVal).None?
  {
  }

  /** The message `turnOnIgmp` and `turnOnIgmpById` pass on: a join report for on, a leave for off. */
  function IgmpToggle(raw: string): (msg: Option<Checksum.Byte>)
    ensures msg == Some(Checksum.JoinReport) <==> OnOff(raw) == Some(true)
    ensures msg == Some(Checksum.LeaveGroup) <==> OnOff(raw) == Some(false)
    ensures msg.None? <==> OnOff(raw).None?
  {
    match OnOff(raw)
    case None => None
    case Some(on) => Some(if on then Checksum.JoinReport else Checksum.LeaveGroup)
  }

  /** `getConfigs`'s order: ascending `Id`. */
  predicate SortedById(filters: seq<Filter>) {
    forall i, j :: 0 <= i < j < |filters| ==> filters[i].id <= filters[j].id
  }

  /** The keys of a Go map range cover the map, so the collected filters are all of them. */
  lemma {:induction false} LookupCoversDb(db: map<int, Filter>, order: seq<int>)
    requires Elements(order) == db.Keys && forall i :: 0 <= i < |order| ==> order[i] in db
    ensures forall k :: k in db ==> db[k] in Switcher.Lookup(db, order)
    ensures forall f :: f in Switcher.Lookup(db, order) ==> exists k :: k in db && db[k] == f
  {
    var filters := Switcher.Lookup(db, order);
    forall k | k in db ensures db[k] in filters {
      assert k in Elements(order);
      var i :| 0 <= i < |order| && order[i] == k;
      assert filters[i] == db[k];
    }
    forall f | f in filters ensures exists k :: k in db && db[k] == f {
      var i :| 0 <= i < |filters| && filters[i] == f;
      var k := order[i];
      assert k in db && db[k] == f;
    }
  }

  /** `sort.Slice` by `Id` on the collected filters, as an insertion sort by adjacent swaps. */
  method SortById(a: array<Filter>)
    modifies a
    ensures SortedById(a[..])
    ensures multiset(a[..]) == multiset(old(a[..]))
  {
    for i := 0 to a.Length
      invariant SortedById(a[..i])
      invariant multiset(a[..]) == multiset(old(a[..]))
    {
      InsertAt(a, i);
    }
    assert a[..a.Length] == a[..];
  }

  /** One insertion step: moves `a[i]` left past the larger ids before it. */
  method InsertAt(a: array<Filter>, i: int)
    requires 0 <= i < a.Length && SortedById(a[..i])
    modifies a
    ensures SortedById(a[..i + 1])
    ensures multiset(a[..]) == multiset(old(a[..]))
  {
    var j := i;
    while j > 0 && a[j - 1].id > a[j].id
      invariant 0 <= j <= i
      invariant multiset(a[..]) == multiset(old(a[..]))
      invariant forall m, n :: 0 <= m < n <= i && m != j && n != j ==> a[m].id <= a[n].id
      invariant forall n :: j < n <= i ==> a[j].id < a[n].id
    {
      Swap(a, j - 1, j);
      j := j - 1;
    }
  }

  method Swap(a: array<Filter>, x: int, y: int)
    requires 0 <= x < y < a.Length
    modifies a
    ensures a[..] == old(a[..])[x := old(a[y])][y := old(a[x])]
    ensures multiset(a[..]) == multiset(old(a[..]))
  {
    a[x], a[y] := a[y], a[x];
  }

  class Service {
    const db: map<int, Filter>
    const filterService: Switcher.Service
    const igmpService: Igmp.Service

    /** `RegisterAPI` without the routes: the handlers share the filters and the three services. */
    constructor (db: map<int, Filter>, filterService: Switcher.Service, igmpService: Igmp.Service)
      ensures this.db == db && this.filterService == filterService && this.igmpService == igmpService
    {
      this.db := db;
      this.filterService := filterService;
      this.igmpService := igmpService;
    }

    /** The side each filter is on. */
    function Sides(): (sides: map<int, bool>)
      reads db.Values
      ensures sides.Keys == db.Keys && forall k :: k in db ==> sides[k] == db[k].isMasterActual
    {
      map k | k in db :: db[k].isMasterActual
    }

    /**
     * `getConfigs`: every filter of the db, collected in the map's iteration order `order` and
     * then sorted by ascending `Id`.
     */
    method GetConfigs() returns (order: seq<int>, filters: seq<Filter>)
      ensures Elements(order) == db.Keys && Distinct(order) && forall i :: 0 <= i < |order| ==> order[i] in db
      ensures multiset(filters) == multiset(Switcher.Lookup(db, order))
      ensures SortedById(filters) && |filters| == |db|
      ensures forall k :: k in db ==> db[k] in filters
      ensures forall f :: f in filters ==> exists k :: k in db && db[k] == f
    {
      order := MapOrder(db.Keys);
      var collected: seq<Filter> := [];
      for i := 0 to |order|
        invariant collected == Switcher.Lookup(db, order[..i])
      {
        collected := collected + [db[order[i]]];
      }
      assert order[..|order|] == order;
      var a := new Filter[|collected|](i requires 0 <= i < |collected| => collected[i]);
      assert a[..] == collected;
      SortById(a);
      filters := a[..];
      LookupCoversDb(db, order);
      forall k | k in db ensures db[k] in filters {
        assert db[k] in multiset(collected);
      }
      forall f | f in filters ensures exists k :: k in db && db[k] == f {
        assert f in multiset(filters);
        assert f in collected;
      }
    }

    /** `getConfigByID`: 400 for a non-integer id, 404 for an unknown one, else the filter. */
    method GetConfigById(rawId: string) returns (status: int, filter: Option<Filter>)
      ensures Decimal.Atoi(rawId).None? ==> status == StatusBadRequest && filter == None
      ensures Decimal.Atoi(rawId).Some? && Decimal.Atoi(rawId).value !in db ==> status == StatusNotFound && filter == None
      ensures Decimal.Atoi(rawId).Some? && Decimal.Atoi(rawId).value in db ==>
        status == StatusOK && filter == Some(db[Decimal.Atoi(rawId).value])
    {
      var id := Decimal.Atoi(rawId);
      if id.None? {
        return StatusBadRequest, None;
      }
      if id.value !in db {
        return StatusNotFound, None;
      }
      return StatusOK, Some(db[id.value]);
    }

    /**
     * `switchFilter`: when the checks pass, the active rule is swapped for the other side's and
     * the filter's side flips once, whether or not auto-switching is on; otherwise nothing
     * changes and no `tc` command is issued.
     */
    method SwitchFilter(rawId: string, rawName: string) returns (status: int)
      modifies filterService`log, db.Values`isMasterActual
      ensures var r := SwitchCheck(rawId, rawName, old(Sides()));
        r.Err? ==> status == r.error && filterService.log == old(filterService.log) && Sides() == old(Sides())
      ensures var r := SwitchCheck(rawId, rawName, old(Sides()));
        r.Ok? ==>
          status == StatusOK &&
          filterService.log == old(filterService.log) +
            Switcher.SwapCalls(Switcher.ConfOf(db[r.value]), old(db[r.value].isMasterActual)) &&
          forall k :: k in db ==>
            db[k].isMasterActual == (if db[k] == db[r.value] then !old(db[k].isMasterActual) else old(db[k].isMasterActual))
    {
      var check := SwitchCheck(rawId, rawName, Sides());
      if check.Err? {
        return check.error;
      }
      var filterInfo := db[check.value];
      filterService.ChangeFilter(filterInfo);
      filterInfo.isMasterActual := !filterInfo.isMasterActual;
      status := StatusOK;
    }

    /**
     * `setAutoSwitch`: when the checks pass, the filter's auto-switch flag takes the new value,
     * and a monitor is started for it exactly when the value is on.
     */
    method SetAutoSwitch(rawId: string, rawVal: string) returns (status: int, started: Option<Filter>)
      modifies db.Values`cfg
      ensures var r := AutoSwitchCheck(rawId, rawVal, db.Keys);
        r.Err? ==> status == r.error && started == None && forall k :: k in db ==> db[k].cfg == old(db[k].cfg)
      ensures var r := AutoSwitchCheck(rawId, rawVal, db.Keys);
        r.Ok? ==>
          status == StatusOK &&
          db[r.value.0].cfg == old(db[r.value.0].cfg).(autoSwitch := r.value.1) &&
          (started.Some? <==> r.value.1) && (started.Some? ==> started.value == db[r.value.0]) &&
          forall k :: k in db && db[k] != db[r.value.0] ==> db[k].cfg == old(db[k].cfg)
    {
      var check := AutoSwitchCheck(rawId, rawVal, db.Keys);
      if check.Err? {
        return check.error, None;
      }
      var filterInfo := db[check.value.0];
      filterInfo.cfg := filterInfo.cfg.(autoSwitch := check.value.1);
      started := if filterInfo.cfg.autoSwitch then Some(filterInfo) else None;
      status := StatusOK;
    }

    /** `turnOnIgmp`: on or off toggles every filter; any other value is 400 and starts nothing. */
    method TurnOnIgmp(raw: string) returns (status: int, spawned: seq<Igmp.Worker>)
      ensures IgmpToggle(raw).None? ==> status == StatusBadRequest && spawned == []
      ensures IgmpToggle(raw).Some? ==> status == StatusOK
      ensures OnOff(raw) == Some(true) ==> forall k :: k in igmpService.db ==>
        (Igmp.Join(k) in spawned <==> !igmpService.db[k].isIgmpOn)
      ensures OnOff(raw) == Some(false) ==> forall k :: k in igmpService.db ==>
        (Igmp.Leave(k) in spawned <==> igmpService.db[k].isIgmpOn)
      ensures OnOff(raw) == Some(true) ==> forall w :: w in spawned ==> w.Join?
      ensures OnOff(raw) == Some(false) ==> forall w :: w in spawned ==> w.Leave?
    {
      var msg := IgmpToggle(raw);
      if msg.None? {
        return StatusBadRequest, [];
      }
      spawned := igmpService.ToggleAll(msg.value);
      status := StatusOK;
    }

    /**
     * `turnOnIgmpById`: a non-integer id, a value other than on/off and an error from the
     * IGMP manager each answer 400; otherwise the manager's worker is started.
     */
    method TurnOnIgmpById(rawId: string, raw: string) returns (status: int, spawned: Option<Igmp.Worker>)
      ensures Decimal.Atoi(rawId).None? || IgmpToggle(raw).None? ==> status == StatusBadRequest && spawned == None
      ensures status == StatusOK || status == StatusBadRequest
      ensures Decimal.Atoi(rawId).Some? && Decimal.Atoi(rawId).value !in igmpService.db ==> status == StatusBadRequest
      ensures status == StatusOK <==>
        Decimal.Atoi(rawId).Some? && IgmpToggle(raw).Some? && Decimal.Atoi(rawId).value in igmpService.db &&
        !(igmpService.db[Decimal.Atoi(rawId).value].isIgmpOn && OnOff(raw) == Some(true))
      ensures status == StatusOK ==>
        var id := Decimal.Atoi(rawId).value;
        spawned == Some(if OnOff(raw) == Some(true) then Igmp.Join(id) else Igmp.Leave(id))
      ensures status != StatusOK ==> spawned == None
    {
      var id := Decimal.Atoi(rawId);
      if id.None? {
        return StatusBadRequest, None;
      }
      var msg := IgmpToggle(raw);
      if msg.None? {
        return StatusBadRequest, None;
      }
      var err;
      err, spawned := igmpService.ToggleByID(id.value, msg.value);
      if err.Some? {
        return StatusBadRequest, None;
      }
      status := StatusOK;
    }
  }
}
