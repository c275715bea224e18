/**
 * The return-to-master registry of `internal/service/net_listener`: a table from destination
 * address to the registration that wants to hear about traffic to it, and the rule applied
 * to each captured packet. Capture itself (pcap, the BPF filter) is replaced by the sequence
 * of packets it would deliver, each reduced to whether it has an IPv4 layer and, if so, the
 * text form of its destination address.
 */
module Listener {
  import opened SyncMaps

  /** A registration: the `Id` to report and the channel `ReceiveChan` it is reported on. */
  datatype Info = Info(id: int, receiveChan: nat)

  datatype Packet = NonIPv4 | IPv4(dst: string)

  /** One `ch.ReceiveChan <- ch.Id`. */
  datatype Notification = Notification(channel: nat, id: int)

  /** What one packet causes: one notification for an IPv4 packet to a registered address, nothing otherwise. */
  function Dispatch(table: map<string, Info>, p: Packet): (out: seq<Notification>)
    ensures |out| <= 1
    ensures out != [] <==> p.IPv4? && p.dst in table
    ensures out != [] ==> out[0] == Notification(table[p.dst].receiveChan, table[p.dst].id)
  {
    if p.IPv4? && p.dst in table then [Notification(table[p.dst].receiveChan, table[p.dst].id)] else []
  }

  /** The notifications for a run of packets, in packet order. */
  function Notifications(table: map<string, Info>, packets: seq<Packet>): (out: seq<Notification>)
    ensures |out| <= |packets|
    ensures table == map[] ==> out == []
  {
    if packets == [] then []
    else Notifications(table, packets[..|packets| - 1]) + Dispatch(table, packets[|packets| - 1])
  }

  /** The packets that reach a registration. */
  function Hits(table: map<string, Info>, packets: seq<Packet>): nat {
    if packets == [] then 0
    else Hits(table, packets[..|packets| - 1]) + (if packets[|packets| - 1].IPv4? && packets[|packets| - 1].dst in table then 1 else 0)
  }

  /**
   * Each hit gives exactly one notification, and each notification carries the id of a
   * registration in the table on that registration's channel.
   */
  lemma {:induction false} NotificationsCount(table: map<string, Info>, packets: seq<Packet>)
    ensures |Notifications(table, packets)| == Hits(table, packets)
    ensures forall n :: n in Notifications(table, packets) ==>
      exists ip :: ip in table && n == Notification(table[ip].receiveChan, table[ip].id)
  {
    if packets != [] {
      NotificationsCount(table, packets[..|packets| - 1]);
    }
  }

  /** Registering `info` for `ip` makes the next packet to `ip` report `info`, whatever was there before. */
  lemma ReceiveOverwrites(table: map<string, Info>, ip: string, info: Info)
    ensures Dispatch(table[ip := info], IPv4(ip)) == [Notification(info.receiveChan, info.id)]
  {
  }

  /** After `Stop(ip)` packets to `ip` are ignored and every other address is dispatched as before. */
  lemma StopSilences(table: map<string, Info>, ip: string, p: Packet)
    ensures Dispatch(table - {ip}, IPv4(ip)) == []
    ensures (p.IPv4? ==> p.dst != ip) ==> Dispatch(table - {ip}, p) == Dispatch(table, p)
  {
  }

  class Service {
    const ips: SyncMap<string, Info>

    /** `NewService` without the capture handle: an empty table. */
    constructor ()
      ensures fresh(ips) && ips.items == map[]
    {
      ips := new SyncMap(Info(0, 0));
    }

    /** `Receive`: register `info` for `ip`, replacing any earlier registration. */
    method Receive(ip: string, info: Info)
      modifies ips
      ensures ips.items == old(ips.items)[ip := info]
    {
      ips.Set(ip, info);
    }

    /** `Stop`: remove the registration for `ip`, leaving the others. */
    method Stop(ip: string)
      modifies ips
      ensures ips.items == old(ips.items) - {ip}
    {
      ips.Del(ip);
    }

    /**
     * `listen` over the packets the capture delivers. It only reads the table, so every
     * address registered before is still registered after its notification.
     */
    method Listen(packets: seq<Packet>) returns (out: seq<Notification>)
      ensures out == Notifications(ips.items, packets)
    {
      out := [];
      for i := 0 to |packets|
        invariant out == Notifications(ips.items, packets[..i])
      {
        assert packets[..i + 1][..i] == packets[..i];
        match packets[i] {
          case NonIPv4 =>
          case IPv4(dspIp) =>
            var ch, ok := ips.Get(dspIp);
            if ok {
              out := out + [Notification(ch.receiveChan, ch.id)];
            }
        }
      }
      assert packets[..|packets|] == packets;
    }
  }
}
