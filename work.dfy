/**
 * The work items of the scanner as values: each C++ `ScanWork` subclass is a
 * constructor carrying the fields it is built with, and its thread type
 * (`TTPING`, `TTMAIN`, `TTOTHER`) is the lane whose queue holds it.
 */
module Work {

  /** The port a host is first probed on over HTTP, and xSchedule's default. */
  const HttpPort: int := 80

  datatype Lane = PingLane | MainLane | OtherLane

  datatype Work =
    | PingWork(ip: string, why: string, proxy: string)
    | HTTPWork(ip: string, port: int, proxy: string)
    | FPPWork(ip: string, proxy: string)
    | FalconWork(ip: string, proxy: string)
    | XScheduleWork(ip: string, port: int)
    | MACWork(ip: string, mac: string)
    | DiscoverWork
    | ComputerWork

  /** Reachability probes run on the ping lane, HTTP probes on the main lane, all else on the other lane. */
  function LaneOf(w: Work): Lane {
    match w
    case PingWork(_, _, _) => PingLane
    case HTTPWork(_, _, _) => MainLane
    case _ => OtherLane
  }

  /** Every item of `q` belongs to `lane`. */
  predicate InLane(q: seq<Work>, lane: Lane) {
    forall i :: 0 <= i < |q| ==> LaneOf(q[i]) == lane
  }
}
