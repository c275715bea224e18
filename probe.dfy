/**
 * `main` of `cmd/test.go`, a standalone probe: it opens a raw IGMP socket on 0.0.0.0 and
 * sends the join report for the all-hosts group 224.0.0.1 every two seconds. Its encoder and
 * checksum are the same text as those of `internal/service/igmp` and are modelled by
 * `Checksum.NewIgmpMsg` and `Checksum.CalculateChecksum`.
 */
module Probe {
  import opened Checksum

  /** The bytes `To4()` gives for 224.0.0.1. */
  const AllHosts: seq<Byte> := [0xE0, 0x00, 0x00, 0x01]

  /**
   * The probe's loop cut after `rounds` sends (the program itself never stops). When the
   * socket does not open it returns without sending.
   */
  method ProbeMain(socketOpened: bool, rounds: nat) returns (sent: seq<seq<Byte>>)
    ensures !socketOpened ==> sent == []
    ensures socketOpened ==> |sent| == rounds
    ensures forall i :: 0 <= i < |sent| ==> sent[i] == [0x16, 0x00, 0x09, 0xFE, 0xE0, 0x00, 0x00, 0x01]
  {
    if !socketOpened {
      return [];
    }
    sent := [];
    for r := 0 to rounds
      invariant |sent| == r
      invariant forall i :: 0 <= i < r ==> sent[i] == [0x16, 0x00, 0x09, 0xFE, 0xE0, 0x00, 0x00, 0x01]
    {
      var packet := NewIgmpMsg(0x16, AllHosts);
      AllHostsJoinVector();
      sent := sent + [packet[..]];
    }
  }
}
