/** The anti-replay filter of `secure_channel.py`: the highest counter accepted so far and an integer
    whose bit i says that counter `highest - i` was accepted (section 3.4.3 of RFC 4303). */
module ReplayWindow {

  // ----- Python's unbounded integers as bit strings

  /** `b & (1 << i) != 0` */
  predicate Bit(b: nat, i: nat) {
    if i == 0 then b % 2 == 1 else Bit(b / 2, i - 1)
  }

  /** `b << n` */
  function ShiftLeft(b: nat, n: nat): nat {
    if n == 0 then b else 2 * ShiftLeft(b, n - 1)
  }

  /** `b | (1 << i)` */
  function SetBit(b: nat, i: nat): nat {
    if i == 0 then (if b % 2 == 1 then b else b + 1) else 2 * SetBit(b / 2, i - 1) + b % 2
  }

  /** `b & ((1 << width) - 1)` */
  function Mask(b: nat, width: nat): nat {
    if width == 0 then 0 else 2 * Mask(b / 2, width - 1) + b % 2
  }

  lemma {:induction false} ShiftedBit(b: nat, n: nat, i: nat)
    ensures Bit(ShiftLeft(b, n), i) <==> i >= n && Bit(b, i - n)
  {
    if n > 0 {
      var half := ShiftLeft(b, n - 1);
      assert (2 * half) / 2 == half;
      if i > 0 { ShiftedBit(b, n - 1, i - 1); }
    }
  }

  lemma {:induction false} SetBitBit(b: nat, k: nat, i: nat)
    ensures Bit(SetBit(b, k), i) <==> i == k || Bit(b, i)
  {
    if k > 0 {
      var half := SetBit(b / 2, k - 1);
      assert (2 * half + b % 2) / 2 == half;
      if i > 0 { SetBitBit(b / 2, k - 1, i - 1); }
    } else if i > 0 && b % 2 == 0 {
      assert (b + 1) / 2 == b / 2;
    }
  }

  lemma {:induction false} MaskBit(b: nat, width: nat, i: nat)
    ensures Bit(Mask(b, width), i) <==> i < width && Bit(b, i)
  {
    if width > 0 {
      var half := Mask(b / 2, width - 1);
      assert (2 * half + b % 2) / 2 == half;
      if i > 0 { MaskBit(b / 2, width - 1, i - 1); }
    } else {
      ZeroBit(i);
    }
  }

  lemma {:induction false} ZeroBit(i: nat)
    ensures !Bit(0, i)
  {
    if i > 0 { ZeroBit(i - 1); }
  }

  lemma {:induction false} OneBit(i: nat)
    ensures Bit(1, i) <==> i == 0
  {
    if i > 0 { ZeroBit(i - 1); }
  }

  // ----- the filter

  datatype Window = Window(highest: int, bitmap: nat)

  const EMPTY: Window := Window(-1, 0)

  datatype Freshness = Fresh | OlderThanWindow | Duplicate

  /** `_check_freshness` */
  function Check(size: nat, w: Window, counter: nat): Freshness {
    if counter > w.highest then Fresh
    else if w.highest - counter >= size then OlderThanWindow
    else if Bit(w.bitmap, w.highest - counter) then Duplicate
    else Fresh
  }

  /** `_mark_seen` */
  function Mark(size: nat, w: Window, counter: nat): Window {
    if counter > w.highest then
      var shift := counter - w.highest;
      Window(counter, if shift >= size then 1 else Mask(SetBit(ShiftLeft(w.bitmap, shift), 0), size))
    else
      Window(w.highest, SetBit(w.bitmap, w.highest - counter))
  }

  // ----- what the filter stands for: the set of all counters accepted so far

  ghost predicate Represents(size: nat, w: Window, accepted: set<nat>) {
    && w.highest >= -1
    && (w.highest >= 0 ==> w.highest in accepted)
    && (forall c | c in accepted :: c <= w.highest)
    && (forall i: nat | i < size && i <= w.highest :: Bit(w.bitmap, i) <==> w.highest - i in accepted)
    && (forall i: nat | i < size && i > w.highest :: !Bit(w.bitmap, i))
  }

  /** The filter's verdict, in terms of the counters accepted before. */
  ghost function Verdict(size: nat, highest: int, accepted: set<nat>, counter: nat): Freshness {
    if counter > highest then Fresh
    else if highest - counter >= size then OlderThanWindow
    else if counter in accepted then Duplicate
    else Fresh
  }

  lemma CheckIsVerdict(size: nat, w: Window, accepted: set<nat>, counter: nat)
    requires Represents(size, w, accepted)
    ensures Check(size, w, counter) == Verdict(size, w.highest, accepted, counter)
    ensures Check(size, w, counter) == Fresh ==> counter !in accepted
  {
    if counter <= w.highest && w.highest - counter < size {
      var i: nat := w.highest - counter;
      assert Bit(w.bitmap, i) <==> w.highest - i in accepted;
    }
  }

  lemma EmptyRepresents(size: nat)
    ensures Represents(size, EMPTY, {})
  {
    forall i: nat ensures !Bit(0, i) { ZeroBit(i); }
  }

  lemma AdvanceBit(size: nat, b: nat, shift: nat, i: nat)
    requires 1 <= shift && i < size
    ensures Bit(if shift >= size then 1 else Mask(SetBit(ShiftLeft(b, shift), 0), size), i) <==>
            i == 0 || (i >= shift && Bit(b, i - shift))
  {
    OneBit(i);
    MaskBit(SetBit(ShiftLeft(b, shift), 0), size, i);
    SetBitBit(ShiftLeft(b, shift), 0, i);
    ShiftedBit(b, shift, i);
  }

  lemma MarkRepresents(size: nat, w: Window, accepted: set<nat>, counter: nat)
    requires Represents(size, w, accepted)
    ensures Represents(size, Mark(size, w, counter), accepted + {counter})
  {
    var w' := Mark(size, w, counter);
    var accepted' := accepted + {counter};
    forall i: nat | i < size
      ensures Bit(w'.bitmap, i) <==> i <= w'.highest && w'.highest - i in accepted'
    {
      if counter > w.highest {
        AdvanceBit(size, w.bitmap, counter - w.highest, i);
      } else {
        SetBitBit(w.bitmap, w.highest - counter, i);
      }
    }
  }

  // ----- whole runs: any list of counters, however hostile, offered to the filter

  /** Every counter that passes the check is marked, as `decrypt` does when the frame is authentic. */
  ghost function AfterOffers(size: nat, offers: seq<nat>): (Window, set<nat>) {
    if offers == [] then (EMPTY, {})
    else
      var c := offers[|offers| - 1];
      var (w, accepted) := AfterOffers(size, offers[..|offers| - 1]);
      if Check(size, w, c) == Fresh then (Mark(size, w, c), accepted + {c}) else (w, accepted)
  }

  lemma {:induction false} FilterRefinesAcceptedSet(size: nat, offers: seq<nat>)
    ensures var (w, accepted) := AfterOffers(size, offers);
            && Represents(size, w, accepted)
            && forall c: nat :: Check(size, w, c) == Verdict(size, w.highest, accepted, c)
                                && (Check(size, w, c) == Fresh ==> c !in accepted)
  {
    var (w, accepted) := AfterOffers(size, offers);
    if offers == [] {
      EmptyRepresents(size);
    } else {
      var before := offers[..|offers| - 1];
      FilterRefinesAcceptedSet(size, before);
      MarkRepresents(size, AfterOffers(size, before).0, AfterOffers(size, before).1, offers[|offers| - 1]);
    }
    forall c: nat
      ensures Check(size, w, c) == Verdict(size, w.highest, accepted, c)
      ensures Check(size, w, c) == Fresh ==> c !in accepted
    {
      CheckIsVerdict(size, w, accepted, c);
    }
  }

  // ----- the bitmap stays as wide as the window

  function Pow2(n: nat): (p: nat)
    ensures p > 0
  {
    if n == 0 then 1 else 2 * Pow2(n - 1)
  }

  lemma {:induction false} MaskIsNarrow(b: nat, width: nat)
    ensures Mask(b, width) < Pow2(width)
  {
    if width > 0 { MaskIsNarrow(b / 2, width - 1); }
  }

  lemma {:induction false} SetBitIsNarrow(b: nat, i: nat, width: nat)
    requires b < Pow2(width) && i < width
    ensures SetBit(b, i) < Pow2(width)
  {
    var half := Pow2(width - 1);
    Halves(b, half);
    if i > 0 { SetBitIsNarrow(b / 2, i - 1, width - 1); }
  }

  lemma Halves(b: nat, half: nat)
    requires b < 2 * half
    ensures b / 2 < half && (b % 2 == 0 ==> b + 1 < 2 * half)
  {
  }

  /** A window of no size at all still takes one bit, for the highest counter. */
  function Width(size: nat): nat {
    if size == 0 then 1 else size
  }

  predicate Narrow(size: nat, w: Window) {
    w.bitmap < Pow2(Width(size))
  }

  lemma MarkStaysNarrow(size: nat, w: Window, counter: nat)
    requires Narrow(size, w) && Check(size, w, counter) == Fresh
    ensures Narrow(size, Mark(size, w, counter))
  {
    assert 1 < Pow2(Width(size)) by { assert Pow2(Width(size)) == 2 * Pow2(Width(size) - 1); }
    if counter > w.highest {
      MaskIsNarrow(SetBit(ShiftLeft(w.bitmap, counter - w.highest), 0), size);
    } else {
      SetBitIsNarrow(w.bitmap, w.highest - counter, size);
    }
  }

  /** Whatever is offered, the bitmap never outgrows the window. */
  lemma {:induction false} FilterStaysNarrow(size: nat, offers: seq<nat>)
    ensures AfterOffers(size, offers).0.bitmap < Pow2(Width(size))
  {
    if offers != [] {
      var before := offers[..|offers| - 1];
      FilterStaysNarrow(size, before);
      if Check(size, AfterOffers(size, before).0, offers[|offers| - 1]) == Fresh {
        MarkStaysNarrow(size, AfterOffers(size, before).0, offers[|offers| - 1]);
      }
    } else {
      assert Narrow(size, EMPTY);
    }
  }
}
