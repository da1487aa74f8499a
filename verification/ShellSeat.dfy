/**
  Binding input devices to the capabilities a seat announces (Wayland core protocol,
  Appendix A, wl_seat).
 */
module ShellSeat {

  const CAN_POINT: bv32 := 1
  const CAN_TYPE: bv32 := 2
  const CAN_TOUCH: bv32 := 4

  predicate Has(caps: bv32, bit: bv32) {
    caps & bit != 0
  }

  /** One device: whether it is bound, and how often it was got and released. */
  datatype Device = Device(bound: bool, gets: nat, releases: nat)

  const UNBOUND := Device(false, 0, 0)

  function Announce(d: Device, has: bool): Device {
    if has && !d.bound then d.(bound := true, gets := d.gets + 1)
    else if !has && d.bound then d.(bound := false, releases := d.releases + 1)
    else d
  }

  function Release(d: Device): Device {
    if d.bound then d.(bound := false, releases := d.releases + 1) else d
  }

  datatype Seat = Seat(pointer: Device, touch: Device, keyboard: Device)

  const NO_DEVICES := Seat(UNBOUND, UNBOUND, UNBOUND)

  function Capabilities(s: Seat, caps: bv32): Seat {
    Seat(Announce(s.pointer, Has(caps, CAN_POINT)), Announce(s.touch, Has(caps, CAN_TOUCH)),
         Announce(s.keyboard, Has(caps, CAN_TYPE)))
  }

  function Cleanup(s: Seat): Seat {
    Seat(Release(s.pointer), Release(s.touch), Release(s.keyboard))
  }

  function Run(s: Seat, events: seq<bv32>): Seat
    decreases |events|
  {
    if events == [] then s else Capabilities(Run(s, events[..|events| - 1]), events[|events| - 1])
  }

  /** How often the bit went from clear (as it is before any event) to set. */
  function Rises(events: seq<bv32>, bit: bv32): nat
    decreases |events|
  {
    if events == [] then 0
    else Rises(events[..|events| - 1], bit)
         + if Has(events[|events| - 1], bit) && !SetLast(events[..|events| - 1], bit) then 1 else 0
  }

  predicate SetLast(events: seq<bv32>, bit: bv32) {
    events != [] && Has(events[|events| - 1], bit)
  }

  predicate Follows(d: Device, events: seq<bv32>, bit: bv32) {
    && d.bound == SetLast(events, bit)
    && d.gets == Rises(events, bit)
    && d.gets == d.releases + (if d.bound then 1 else 0)
  }

  /**
    After any sequence of capability events each device is bound exactly when its bit was
    set last, was got once for each time the bit came on, and is held at most once.
   */
  lemma {:induction false} DevicesFollowCapabilities(events: seq<bv32>)
    ensures var s := Run(NO_DEVICES, events);
      && Follows(s.pointer, events, CAN_POINT)
      && Follows(s.touch, events, CAN_TOUCH)
      && Follows(s.keyboard, events, CAN_TYPE)
    decreases |events|
  {
    if events != [] {
      hide Has;
      DevicesFollowCapabilities(events[..|events| - 1]);
    }
  }

  /** Cleanup releases whatever is held, once, and doing it again changes nothing. */
  lemma CleanupReleasesAll(events: seq<bv32>)
    ensures var s := Cleanup(Run(NO_DEVICES, events));
      && !s.pointer.bound && !s.touch.bound && !s.keyboard.bound
      && s.pointer.gets == s.pointer.releases && s.touch.gets == s.touch.releases
      && s.keyboard.gets == s.keyboard.releases
      && Cleanup(s) == s
  {
    DevicesFollowCapabilities(events);
  }
}
