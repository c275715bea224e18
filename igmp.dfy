/**
 * The IGMP membership manager of `internal/service/igmp`: which filters a toggle starts
 * workers for, and what the join and leave workers do to the connection pool and to the
 * filter's `isIgmpOn` flag. Opening a raw socket, parsing the group addresses and sending are
 * inputs and outputs: a worker is told whether its socket opened and what `To4()` gave for
 * each address, and returns the sends it would issue.
 */
module Igmp {
  import opened Wrappers
  import opened Checksum
  import opened FilterModel
  import opened GoMaps

  /** An open raw IGMP socket on a local address. */
  datatype Conn = Conn(local: string)

  /** One `conn.Send`: the message and the address it goes to. */
  datatype Send = Send(packet: seq<Byte>, to: string)

  /** A worker goroutine started for the filter under `key`. */
  datatype Worker = Join(key: int) | Leave(key: int)

  datatype ToggleError = UnknownId | AlreadyOn

  /** What a join worker's `select` receives: a ticker tick, or an id on the stop channel. */
  datatype JoinEvent = Announce | StopSignal(id: int)

  /**
   * The join worker's loop for the filter with id `id`, sending `pair` on every tick: it
   * stops at the first stop signal carrying its own id and swallows every other one.
   */
  function JoinRun(id: int, pair: seq<Send>, evs: seq<JoinEvent>): (r: (seq<Send>, bool))
    ensures Announce !in evs ==> r.0 == []
    ensures forall i :: 0 <= i < |r.0| ==> r.0[i] in pair
  {
    if evs == [] then ([], false)
    else
      var rest := JoinRun(id, pair, evs[1..]);
      match evs[0]
      case Announce => (pair + rest.0, rest.1)
      case StopSignal(j) => if j == id then ([], true) else rest
  }

  /** A join worker stops exactly when its own id arrives. */
  lemma {:induction false} JoinRunStops(id: int, pair: seq<Send>, evs: seq<JoinEvent>)
    ensures JoinRun(id, pair, evs).1 <==> StopSignal(id) in evs
  {
    if evs != [] {
      JoinRunStops(id, pair, evs[1..]);
      assert evs == [evs[0]] + evs[1..];
    }
  }

  /** The number of ticks before the first stop signal for `id`. */
  function TicksBefore(id: int, evs: seq<JoinEvent>): nat {
    if evs == [] || evs[0] == StopSignal(id) then 0
    else if evs[0] == Announce then 1 + TicksBefore(id, evs[1..])
    else TicksBefore(id, evs[1..])
  }

  /** Every tick before the worker's own stop sends the pair, and nothing else is sent. */
  lemma {:induction false} JoinRunSends(id: int, pair: seq<Send>, evs: seq<JoinEvent>)
    ensures |JoinRun(id, pair, evs).0| == |pair| * TicksBefore(id, evs)
    ensures forall i :: 0 <= i < |JoinRun(id, pair, evs).0| ==> JoinRun(id, pair, evs).0[i] in pair
  {
    if evs != [] {
      JoinRunSends(id, pair, evs[1..]);
      var rest := JoinRun(id, pair, evs[1..]).0;
      match evs[0]
      case Announce =>
        assert JoinRun(id, pair, evs).0 == pair + rest;
        assert TicksBefore(id, evs) == 1 + TicksBefore(id, evs[1..]);
        assert |pair| * (1 + TicksBefore(id, evs[1..])) == |pair| + |pair| * TicksBefore(id, evs[1..]);
      case StopSignal(j) =>
        if j == id {
          assert JoinRun(id, pair, evs).0 == [] && TicksBefore(id, evs) == 0;
        } else {
          assert JoinRun(id, pair, evs).0 == rest && TicksBefore(id, evs) == TicksBefore(id, evs[1..]);
        }
    }
  }

  class Service {
    const db: map<int, Filter>
    var workingPool: map<int, Conn>

    /** `NewService`: the shared filters and an empty pool. */
    constructor (db: map<int, Filter>)
      ensures this.db == db && workingPool == map[]
    {
      this.db := db;
      workingPool := map[];
    }

    /**
     * `ToggleAll`: a leave starts a leave worker for every filter that is sending joins; any
     * other message starts a join worker for every filter that is not. Workers start in the
     * map's iteration order.
     */
    method ToggleAll(msg: Byte) returns (spawned: seq<Worker>)
      ensures Distinct(spawned)
      ensures forall k :: k in db ==> (Leave(k) in spawned <==> msg == LeaveGroup && db[k].isIgmpOn)
      ensures forall k :: k in db ==> (Join(k) in spawned <==> msg != LeaveGroup && !db[k].isIgmpOn)
      ensures forall w :: w in spawned ==> w.key in db
    {
      var order := MapOrder(db.Keys);
      if msg == LeaveGroup {
        spawned := SpawnLeaves(order);
      } else {
        spawned := SpawnJoins(order);
      }
      forall k | k in db ensures exists j :: 0 <= j < |order| && order[j] == k {
        assert k in Elements(order);
      }
    }

    /** The leave workers `ToggleAll` starts, visiting the filters in `order`. */
    method SpawnLeaves(order: seq<int>) returns (spawned: seq<Worker>)
      requires Distinct(order) && forall i :: 0 <= i < |order| ==> order[i] in db
      ensures Distinct(spawned) && forall w :: w in spawned ==> w.Leave? && w.key in order
      ensures forall j :: 0 <= j < |order| ==> (Leave(order[j]) in spawned <==> db[order[j]].isIgmpOn)
    {
      spawned := [];
      for i := 0 to |order|
        invariant Distinct(spawned) && forall w :: w in spawned ==> w.Leave? && w.key in order[..i]
        invariant forall j :: 0 <= j < i ==> (Leave(order[j]) in spawned <==> db[order[j]].isIgmpOn)
      {
        if db[order[i]].isIgmpOn {
          spawned := spawned + [Leave(order[i])];
        }
      }
    }

    /** The join workers `ToggleAll` starts, visiting the filters in `order`. */
    method SpawnJoins(order: seq<int>) returns (spawned: seq<Worker>)
      requires Distinct(order) && forall i :: 0 <= i < |order| ==> order[i] in db
      ensures Distinct(spawned) && forall w :: w in spawned ==> w.Join? && w.key in order
      ensures forall j :: 0 <= j < |order| ==> (Join(order[j]) in spawned <==> !db[order[j]].isIgmpOn)
    {
      spawned := [];
      for i := 0 to |order|
        invariant Distinct(spawned) && forall w :: w in spawned ==> w.Join? && w.key in order[..i]
        invariant forall j :: 0 <= j < i ==> (Join(order[j]) in spawned <==> !db[order[j]].isIgmpOn)
      {
        if !db[order[i]].isIgmpOn {
          spawned := spawned + [Join(order[i])];
        }
      }
    }

    /**
     * `ToggleByID`: an unknown id and a join for a filter already sending joins are errors;
     * otherwise a join report starts a join worker and any other message a leave worker,
     * even for a filter that never joined.
     */
    method ToggleByID(id: int, msg: Byte) returns (err: Option<ToggleError>, spawned: Option<Worker>)
      ensures id !in db ==> err == Some(UnknownId)
      ensures id in db && db[id].isIgmpOn && msg == JoinReport ==> err == Some(AlreadyOn)
      ensures err.Some? <==> spawned.None?
      ensures err.None? <==> id in db && !(db[id].isIgmpOn && msg == JoinReport)
      ensures err.None? ==> spawned == Some(if msg == JoinReport then Join(id) else Leave(id))
    {
      if id !in db {
        return Some(UnknownId), None;
      }
      var f := db[id];
      if f.isIgmpOn && msg == JoinReport {
        return Some(AlreadyOn), None;
      }
      if msg == JoinReport {
        spawned := Some(Join(id));
      } else {
        spawned := Some(Leave(id));
      }
      err := None;
    }

    /**
     * `runJoinWorker(f)`: when the socket opens, it goes into the pool under `f.id`, the two
     * join reports are built and `isIgmpOn` is set; then every tick sends both reports until the
     * filter's own id arrives on the stop channel. When the socket does not open, nothing happens.
     */
    method RunJoinWorker(f: Filter, socket: Option<Conn>, masterGroup: seq<Byte>, slaveGroup: seq<Byte>,
                         events: seq<JoinEvent>) returns (sent: seq<Send>, stopped: bool)
      modifies this`workingPool, f`isIgmpOn
      ensures socket.None? ==> workingPool == old(workingPool) && f.isIgmpOn == old(f.isIgmpOn)
      ensures socket.None? ==> sent == [] && !stopped
      ensures socket.Some? ==> workingPool == old(workingPool)[f.id := socket.value] && f.isIgmpOn
      ensures socket.Some? ==> (sent, stopped) == JoinRun(f.id, JoinPair(f, masterGroup, slaveGroup), events)
    {
      if socket.None? {
        return [], false;
      }
      workingPool := workingPool[f.id := socket.value];
      var masterPacketJoin := NewIgmpMsg(JoinReport, masterGroup);
      var slavePacketJoin := NewIgmpMsg(JoinReport, slaveGroup);
      f.isIgmpOn := true;
      var pair := [Send(masterPacketJoin[..], f.masterIP), Send(slavePacketJoin[..], f.slaveIP)];
      assert pair == JoinPair(f, masterGroup, slaveGroup);
      sent, stopped := [], false;
      var i := 0;
      assert events[0..] == events;
      assert [] + JoinRun(f.id, pair, events).0 == JoinRun(f.id, pair, events).0;
      while i < |events|
        invariant 0 <= i <= |events|
        invariant JoinRun(f.id, pair, events) == (sent + JoinRun(f.id, pair, events[i..]).0, JoinRun(f.id, pair, events[i..]).1)
      {
        assert events[i..][1..] == events[i + 1..];
        match events[i] {
          case Announce =>
            assert (sent + pair) + JoinRun(f.id, pair, events[i + 1..]).0 == sent + (pair + JoinRun(f.id, pair, events[i + 1..]).0);
            sent := sent + pair;
          case StopSignal(id) =>
            if id == f.id {
              assert JoinRun(f.id, pair, events[i..]) == ([], true);
              assert sent + [] == sent;
              return sent, true;
            }
        }
        i := i + 1;
      }
      assert events[i..] == [];
      assert sent + [] == sent;
    }

    /**
     * `runLeaveWorker(f)`: without a pooled socket for `f.id` it does nothing. Otherwise it
     * signals the stop channel with `f.id`, sends a leave for each side, closes the socket and
     * drops it from the pool. `isIgmpOn` is left as it was.
     */
    method RunLeaveWorker(f: Filter, masterGroup: seq<Byte>, slaveGroup: seq<Byte>)
      returns (stop: Option<int>, sent: seq<Send>)
      modifies this`workingPool
      ensures f.id !in old(workingPool) ==> workingPool == old(workingPool) && stop == None && sent == []
      ensures f.id in old(workingPool) ==> workingPool == old(workingPool) - {f.id} && stop == Some(f.id)
      ensures f.id in old(workingPool) ==>
        sent == [Send(Message(LeaveGroup, masterGroup), f.masterIP), Send(Message(LeaveGroup, slaveGroup), f.slaveIP)]
    {
      if f.id !in workingPool {
        return None, [];
      }
      stop := Some(f.id);
      var masterLeave := NewIgmpMsg(LeaveGroup, masterGroup);
      var slaveLeave := NewIgmpMsg(LeaveGroup, slaveGroup);
      sent := [Send(masterLeave[..], f.masterIP), Send(slaveLeave[..], f.slaveIP)];
      workingPool := workingPool - {f.id};
    }

    /**
     * A join, then a leave, then another join by id: the leave stops the first worker and
     * empties its pool slot, but since it keeps `isIgmpOn` the second join is refused.
     */
    method JoinLeaveRejoin(key: int, conn: Conn, masterGroup: seq<Byte>, slaveGroup: seq<Byte>)
      returns (err: Option<ToggleError>)
      requires key in db
      modifies this`workingPool, db.Values`isIgmpOn
      ensures err == Some(AlreadyOn)
      ensures workingPool == old(workingPool) - {db[key].id}
    {
      var f := db[key];
      ghost var pool0 := workingPool;
      var sent, stopped := RunJoinWorker(f, Some(conn), masterGroup, slaveGroup, []);
      var stop, leaves := RunLeaveWorker(f, masterGroup, slaveGroup);
      PoolSlotFreed(pool0, f.id, conn);
      var spawned;
      err, spawned := ToggleByID(key, JoinReport);
    }
  }

  /** Pooling a socket under `id` and then dropping `id` leaves the pool without `id`. */
  lemma PoolSlotFreed(pool: map<int, Conn>, id: int, conn: Conn)
    ensures pool[id := conn] - {id} == pool - {id}
  {
  }

  /** The two join reports a join worker sends on each tick. */
  function JoinPair(f: Filter, masterGroup: seq<Byte>, slaveGroup: seq<Byte>): (pair: seq<Send>)
  {
    [Send(Message(JoinReport, masterGroup), f.masterIP), Send(Message(JoinReport, slaveGroup), f.slaveIP)]
  }
}
