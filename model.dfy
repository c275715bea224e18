/**
 * The record of one master/slave route pair. Go shares one `*Filter` between the switch
 * engine, the IGMP manager and the HTTP handlers, each updating its own fields in place, so
 * it is a class here; the fields that nothing changes after construction are constants.
 */
module FilterModel {
  import opened Wrappers

  /** Per-filter settings: stall count, poll period, rule priorities, auto-switch flag. */
  datatype Cfg = Cfg(tries: int, secToSwitch: int, masterPrio: int, slavePrio: int, autoSwitch: bool)

  class Filter {
    const id: int
    const interfaceName: string
    const masterIP: string
    const slaveIP: string
    const dstIP: string
    var isMasterActual: bool
    /** The baseline byte count; `None` is Go's nil `*big.Int`. */
    var bytes: Option<nat>
    var cfg: Cfg
    /** Whether join reports are being sent for this filter (read and set by the IGMP manager). */
    var isIgmpOn: bool

    constructor (id: int, interfaceName: string, masterIP: string, slaveIP: string, dstIP: string,
                 isMasterActual: bool, bytes: Option<nat>, cfg: Cfg)
      ensures this.id == id && this.interfaceName == interfaceName
      ensures this.masterIP == masterIP && this.slaveIP == slaveIP && this.dstIP == dstIP
      ensures this.isMasterActual == isMasterActual && this.bytes == bytes && this.cfg == cfg
      ensures !isIgmpOn
    {
      this.id := id;
      this.interfaceName := interfaceName;
      this.masterIP := masterIP;
      this.slaveIP := slaveIP;
      this.dstIP := dstIP;
      this.isMasterActual := isMasterActual;
      this.bytes := bytes;
      this.cfg := cfg;
      this.isIgmpOn := false;
    }

    /** The address of the side whose rule is installed. */
    function GetActualIP(): (ip: string)
      reads this
      ensures ip == (if isMasterActual then masterIP else slaveIP)
    {
      if isMasterActual then masterIP else slaveIP
    }

    /** Replaces the stored baseline; nothing else changes. */
    method SetBytes(b: Option<nat>)
      modifies this`bytes
      ensures bytes == b
    {
      bytes := b;
    }
  }
}
