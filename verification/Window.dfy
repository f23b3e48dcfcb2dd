/** The display under an emulator, which takes an update when it likes: what is pending always covers what differs. */
module Window {

  const HEIGHT: nat := 240

  /** A row of the panel, as which of its pixels are ink. */
  type Row = seq<bool>

  type Rows = r: seq<Row> | |r| == HEIGHT witness seq(HEIGHT, _ => [])

  /** Rows some way down taken over from others. */
  function Over(under: Rows, from: nat, over: seq<Row>): (r: Rows)
    requires from + |over| <= HEIGHT
  {
    under[..from] + over + under[from + |over|..]
  }

  lemma FrontGrows(rows: Rows, k: nat, row: Row)
    requires k < HEIGHT
    ensures rows[k := row][..k + 1] == rows[..k] + [row]
  {
  }

  /** Some moment or other at which the device may look, by its number. */
  type Moments = nat -> bool

  /** The device: what its window shows, its own memory, and the rows of an update it may have been asked for. */
  class Device {
    ghost var window: Rows
    var busy: bool
    var from: nat
    var to: nat
    var vram: Rows

    ghost predicate Valid()
      reads this
    {
      busy ==> from <= to <= HEIGHT
    }

    constructor (ghost w: Rows)
      ensures Valid() && !busy && window == w
    {
      window, busy, from, to, vram := w, false, 0, 0, seq(HEIGHT, _ => []);
    }

    /** Whenever it refreshes the window: what its memory holds at that moment goes where it was asked for. */
    method Take()
      requires Valid()
      modifies `window, `busy
      ensures Valid() && !busy
      ensures window == if old(busy) then Over(old(window), from, vram[..to - from]) else old(window)
    {
      if busy {
        window, busy := Over(window, from, vram[..to - from]), false;
      }
    }
  }

  class Driver {
    const device: Device
    var shown: Rows
    // The rows of the update that is pending, as the driver last knew: hi before lo for none
    var lo: int
    var hi: int
    var whole: bool

    /** Whatever the device may yet take is inside the rows pending, and outside them the window is right already. */
    ghost predicate Covered()
      reads this, device
    {
      && device.Valid() && 0 <= lo <= HEIGHT && -1 <= hi < HEIGHT
      && (device.busy ==> lo <= device.from && device.to <= hi + 1)
      && forall y :: 0 <= y < HEIGHT && !(lo <= y <= hi) ==> device.window[y] == shown[y]
    }

    /** Between frames: an update that is pending is of those rows as they are now shown, and with none pending the
        window is right; until the first frame it is black, and all of it is to be asked for. */
    ghost predicate Valid()
      reads this, device
    {
      && device.Valid() && 0 <= lo <= HEIGHT && -1 <= hi < HEIGHT
      && (whole ==> !device.busy)
      && (!whole && device.busy ==>
            Covered() && device.from == lo <= hi && device.to == hi + 1
            && device.vram[..hi + 1 - lo] == shown[lo..hi + 1])
      && (!whole && !device.busy ==> device.window == shown)
    }

    constructor (ghost black: Rows, blank: Rows)
      ensures Valid() && whole && shown == blank && fresh(device)
    {
      device := new Device(black);
      shown, lo, hi, whole := blank, HEIGHT, -1, true;
    }

    /** The device takes the update, if there is one: then its window shows the last frame. */
    method Refresh()
      requires Valid()
      modifies device
      ensures Valid() && (!whole ==> device.window == shown) && !device.busy
    {
      device.Take();
      if !whole {
        assert forall y :: 0 <= y < HEIGHT ==> device.window[y] == shown[y];
      }
    }

    /** The device looks, or does not: what it takes in the middle of things spoils no row but those pending. */
    method Meanwhile(looks: bool)
      requires Covered()
      modifies device`window, device`busy
      ensures Covered() && (device.busy ==> old(device.busy))
      ensures !old(device.busy) ==> device.window == old(device.window)
    {
      if looks {
        device.Take();
      }
    }

    /** Take over the rows that differ, and widen what is pending to cover them. */
    method Compare(frame: Rows, at: Moments)
      requires Covered()
      modifies `shown, `lo, `hi, device`window, device`busy
      ensures Covered() && shown == frame && lo <= old(lo) && old(hi) <= hi && (device.busy ==> old(device.busy))
      ensures old(shown) == frame ==> lo == old(lo) && hi == old(hi)
      ensures (lo == old(lo) && hi == old(hi)) || lo <= hi
    {
      ghost var was, same := shown, shown == frame;
      assert same ==> forall k :: 0 <= k < HEIGHT ==> was[k] == frame[k];
      for y := 0 to HEIGHT
        invariant Covered() && lo <= old(lo) && old(hi) <= hi && (device.busy ==> old(device.busy))
        invariant (lo == old(lo) && hi == old(hi)) || lo <= hi
        invariant forall k :: 0 <= k < y ==> shown[k] == frame[k]
        invariant forall k :: y <= k < HEIGHT ==> shown[k] == was[k]
        invariant same ==> lo == old(lo) && hi == old(hi)
      {
        if frame[y] != shown[y] {
          Widen(y, frame[y]);
        }
        Meanwhile(at(y));
      }
      assert shown == frame;
    }

    method Widen(y: nat, row: Row)
      requires Covered() && y < HEIGHT
      modifies `shown, `lo, `hi
      ensures Covered() && shown == old(shown)[y := row] && lo <= y <= hi
      ensures lo == (if y < old(lo) then y else old(lo)) && hi == (if y > old(hi) then y else old(hi))
    {
      shown := shown[y := row];
      lo := if y < lo then y else lo;
      hi := if y > hi then y else hi;
    }

    /** The rows pending, packed one after the other into the device's memory; in the middle of a row it is half of
        one and half of another. */
    method Pack(halves: nat -> Row, at: Moments)
      requires Covered() && lo <= hi
      modifies device`vram, device`window, device`busy
      ensures Covered() && (device.busy ==> old(device.busy)) && device.vram[..hi + 1 - lo] == shown[lo..hi + 1]
    {
      for y := lo to hi + 1
        invariant Covered() && (device.busy ==> old(device.busy))
        invariant device.vram[..y - lo] == shown[lo..y]
      {
        ghost var before := device.vram;
        PackRow(y, halves(y), at(2 * y), at(2 * y + 1));
        assert shown[lo..y + 1] == shown[lo..y] + [shown[y]];
        FrontGrows(before, y - lo, shown[y]);
      }
    }

    method PackRow(y: nat, half: Row, middle: bool, end: bool)
      requires Covered() && lo <= y <= hi
      modifies device`vram, device`window, device`busy
      ensures Covered() && (device.busy ==> old(device.busy)) && device.vram == old(device.vram)[y - lo := shown[y]]
    {
      device.vram := device.vram[y - lo := half];
      Meanwhile(middle);
      device.vram := device.vram[y - lo := shown[y]];
      Meanwhile(end);
    }

    /** Where they go, a register at a time. */
    method Ask(at: Moments)
      requires Covered() && lo <= hi && device.vram[..hi + 1 - lo] == shown[lo..hi + 1]
      modifies device`from, device`to, device`window, device`busy
      ensures Covered() && device.busy && device.from == lo && device.to == hi + 1
    {
      device.from := lo;
      Meanwhile(at(0));
      device.to := hi + 1;
      Meanwhile(at(1));
      device.busy := true;
    }

    /** Show a frame without waiting for the device, which may take what it was asked for before at any moment, its
        memory half written or not. */
    method Present(frame: Rows, halves: nat -> Row, comparing: Moments, packing: Moments, asking: Moments)
      requires Valid()
      modifies this, device
      ensures Valid() && shown == frame && !whole
      ensures old(!whole && !device.busy && shown == frame) ==> !device.busy && device.window == old(device.window)
    {
      if !device.busy {
        lo, hi := HEIGHT, -1;
      }
      if whole {
        lo, hi, whole := 0, HEIGHT - 1, false;
      }
      Compare(frame, comparing);
      if lo > hi {
        return;
      }
      Pack(halves, packing);
      Ask(asking);
    }
  }
}
