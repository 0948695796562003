/** The value-only lighting contract: fills, transient starts and commands. */
module Lighting {
  import opened Pixels
  import opened LedZone

  const FILL_CAPACITY := 8
  const TRANSIENT_CAPACITY := 8
  const MAX_TRANSIENT_DURATION: uint64 := 5_000_000

  /** One level-driven fill; a higher priority wins where effects overlap. */
  datatype LightingFill = LightingFill(zone: Zone, level: FillFraction, color: Rgb, priority: uint8)

  type LightingFills = s: seq<LightingFill> | |s| <= FILL_CAPACITY

  datatype LightingTransient =
    LightingTransient(zone: Zone, color: Rgb, priority: uint8, duration: uint64)

  datatype TransientStart =
    TransientStart(id: uint8, epoch: uint32, sequence: uint64, effect: LightingTransient, origin: uint64)

  predicate ValidStart(start: TransientStart) {
    && 0 < start.id <= 8
    && start.sequence != 0
    && 0 < start.effect.duration <= MAX_TRANSIENT_DURATION
  }

  predicate DistinctIds(starts: seq<TransientStart>) {
    forall i, j :: 0 <= i < j < |starts| ==> starts[i].id != starts[j].id
  }

  /** What a snapshot built by `AddStart` can hold. */
  predicate ValidStarts(starts: seq<TransientStart>) {
    && |starts| <= TRANSIENT_CAPACITY
    && (forall i :: 0 <= i < |starts| ==> ValidStart(starts[i]))
    && DistinctIds(starts)
  }

  type TransientStarts = s: seq<TransientStart> | ValidStarts(s)

  /** Appends a start, or changes nothing when it is invalid, repeated or beyond capacity. */
  function AddStart(starts: TransientStarts, start: TransientStart): (r: (TransientStarts, bool))
    ensures r.1 ==> r.0 == starts + [start]
    ensures !r.1 ==> r.0 == starts
    ensures r.1 <==> ValidStarts(starts + [start])
  {
    var all := starts + [start];
    if !ValidStart(start) || |starts| == TRANSIENT_CAPACITY then
      assert all[|starts|] == start;
      (starts, false)
    else if exists i :: 0 <= i < |starts| && starts[i].id == start.id then
      var i :| 0 <= i < |starts| && starts[i].id == start.id && forall j :: 0 <= j < i ==> starts[j].id != start.id;
      assert all[i].id == all[|starts|].id;
      (starts, false)
    else
      (all, true)
  }

  datatype Priorities = Priorities(leftTurn: uint8, rightTurn: uint8, brake: uint8)

  const DEFAULT_PRIORITIES := Priorities(100, 100, 100)

  datatype LightingCommand = LightingCommand(
    color: Rgb, leftTurn: bool, rightTurn: bool, brake: bool,
    validUntil: uint64, actionable: bool,
    fills: LightingFills, priorities: Priorities, transients: TransientStarts)

  /** The default command: nothing lit, not actionable. Every fail-off queues this one. */
  const BLACK_COMMAND :=
    LightingCommand(BLACK, false, false, false, 0, false, [], DEFAULT_PRIORITIES, [])
}
