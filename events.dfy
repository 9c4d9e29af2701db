/** The normalised event shared by the parser and the tracker (internal/types/events.go). */
module Events {
  import opened Wrappers

  /**
   * An instant, as the seven fields `time.Date` is called with (year, month,
   * day, hour, minute, second, nanosecond). Calendar normalisation and time
   * zones are not part of the model.
   */
  datatype Time = Time(year: int, month: int, day: int, hour: int, minute: int, second: int, nanosecond: int)

  /** The zero `time.Time`: 1 January of year 1, midnight. */
  const ZeroTime: Time := Time(1, 1, 1, 0, 0, 0, 0)

  predicate IsZero(t: Time) {
    t == ZeroTime
  }

  /** `EventKind` is a plain integer type; the named kinds are 0..4 in declaration order. */
  type EventKind = int

  const Unknown: EventKind := 0
  const MapStart: EventKind := 1
  const MapEnd: EventKind := 2
  const BagInit: EventKind := 3
  const BagMod: EventKind := 4

  predicate IsNamed(k: EventKind) {
    MapStart <= k <= BagMod
  }

  /** `EventKind.String`: the kind's name, and "Unknown" for 0 and every value outside 1..4. */
  function KindString(k: EventKind): (r: string)
    ensures r == "Unknown" <==> !IsNamed(k)
    ensures k == MapStart <==> r == "MapStart"
    ensures k == MapEnd <==> r == "MapEnd"
    ensures k == BagInit <==> r == "BagInit"
    ensures k == BagMod <==> r == "BagMod"
  {
    if k == MapStart then "MapStart"
    else if k == MapEnd then "MapEnd"
    else if k == BagInit then "BagInit"
    else if k == BagMod then "BagMod"
    else "Unknown"
  }

  /** The four named kinds are told apart by their names. */
  lemma NamedKindsDistinct(a: EventKind, b: EventKind)
    requires IsNamed(a) && IsNamed(b) && a != b
    ensures KindString(a) != KindString(b)
  {
  }

  /** Inventory slot values captured from a bag line; `num` is an absolute count. */
  datatype BagEvent = BagEvent(pageId: int, slotId: int, configBaseId: int, num: int)

  /** A parsed event: its kind, logical time, the original line and, for bag events, the payload. */
  datatype Event = Event(kind: EventKind, time: Time, line: string, bag: Option<BagEvent>)
}
