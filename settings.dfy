/**
 * The JSON configuration of `internal/config` as values: the interface, the poll period and
 * one entry per master/slave pair. Reading and decoding the file is left out.
 */
module Settings {
  /** One side of a pair: the multicast address and its rule's priority. */
  datatype Info = Info(ip: string, priority: int)

  /** One master/slave pair redirected to `route`. */
  datatype Filter = Filter(route: string, switchTries: int, autoSwitch: bool, master: Info, slave: Info)

  datatype Config = Config(iface: string, port: string, copyTrafficFrom: string, statFrequencySec: int,
                           filters: seq<Filter>)
}
