/**
 * The capability flags a service can advertise (`pattern::Flags`).  Each
 * flag is one bit of the service's flag mask; a C++ `int` is modelled by
 * its 32-bit pattern.
 */
module ServiceFlags {

  type FlagMask = bv32

  const BUSY: FlagMask := 1
  const READY: FlagMask := 2
  const SLAM: FlagMask := 4
  const MANIPULATOR: FlagMask := 8
  const REMOTE: FlagMask := 16

  /** The enumerators of `pattern::Flags`. */
  datatype Flag = Busy | Ready | Slam | Manipulator | Remote

  /** The value of an enumerator. */
  function Bit(f: Flag): FlagMask
  {
    match f
    case Busy => BUSY
    case Ready => READY
    case Slam => SLAM
    case Manipulator => MANIPULATOR
    case Remote => REMOTE
  }

  /** A mask with exactly one bit set. */
  predicate IsSingleBit(m: FlagMask)
  {
    m != 0 && m & (m - 1) == 0
  }

  /** The mask obtained by or-ing together the flags of `s`. */
  function Mask(s: set<Flag>): FlagMask
  {
    (if Busy in s then BUSY else 0)
    | (if Ready in s then READY else 0)
    | (if Slam in s then SLAM else 0)
    | (if Manipulator in s then MANIPULATOR else 0)
    | (if Remote in s then REMOTE else 0)
  }

  /** Every bit set in `wanted` is also set in `offered`. */
  predicate HasAll(offered: FlagMask, wanted: FlagMask)
  {
    offered & wanted == wanted
  }

  /** Every enumerator is a single bit, and no two enumerators share a bit. */
  lemma FlagsAreDisjointBits(f: Flag, g: Flag)
    ensures IsSingleBit(Bit(f))
    ensures f != g <==> Bit(f) & Bit(g) == 0
  {
  }

  /** A combined mask has a flag's bit exactly when the flag was combined into it. */
  lemma MaskHasFlag(s: set<Flag>, f: Flag)
    ensures Mask(s) & Bit(f) == Bit(f) <==> f in s
    ensures Mask(s) & Bit(f) == 0 <==> f !in s
  {
  }

  /** Different combinations of flags give different masks. */
  lemma MaskInjective(s: set<Flag>, t: set<Flag>)
    ensures Mask(s) == Mask(t) <==> s == t
  {
    if Mask(s) == Mask(t) {
      MaskHasFlag(s, Busy); MaskHasFlag(t, Busy);
      MaskHasFlag(s, Ready); MaskHasFlag(t, Ready);
      MaskHasFlag(s, Slam); MaskHasFlag(t, Slam);
      MaskHasFlag(s, Manipulator); MaskHasFlag(t, Manipulator);
      MaskHasFlag(s, Remote); MaskHasFlag(t, Remote);
      forall f: Flag
        ensures f in s <==> f in t
      {
        match f
        case Busy =>
        case Ready =>
        case Slam =>
        case Manipulator =>
        case Remote =>
      }
    }
  }

  /** The bit-level fact behind HasAllOf, one boolean per enumerator. */
  lemma HasAllOfCombination(a: FlagMask, busy: bool, ready: bool, slam: bool, manipulator: bool, remote: bool)
    ensures var m := (if busy then BUSY else 0) | (if ready then READY else 0) | (if slam then SLAM else 0)
                     | (if manipulator then MANIPULATOR else 0) | (if remote then REMOTE else 0);
      HasAll(a, m) <==>
      && (busy ==> HasAll(a, BUSY))
      && (ready ==> HasAll(a, READY))
      && (slam ==> HasAll(a, SLAM))
      && (manipulator ==> HasAll(a, MANIPULATOR))
      && (remote ==> HasAll(a, REMOTE))
  {
  }

  /** A mask has all bits of a combination iff it has the bit of each flag combined. */
  lemma HasAllOf(a: FlagMask, s: set<Flag>)
    ensures HasAll(a, Mask(s)) <==> forall f :: f in s ==> HasAll(a, Bit(f))
  {
    HasAllOfCombination(a, Busy in s, Ready in s, Slam in s, Manipulator in s, Remote in s);
    if HasAll(a, Mask(s)) {
      forall f | f in s
        ensures HasAll(a, Bit(f))
      {
        match f
        case Busy =>
        case Ready =>
        case Slam =>
        case Manipulator =>
        case Remote =>
      }
    } else {
      assert !(Busy in s ==> HasAll(a, Bit(Busy)))
        || !(Ready in s ==> HasAll(a, Bit(Ready)))
        || !(Slam in s ==> HasAll(a, Bit(Slam)))
        || !(Manipulator in s ==> HasAll(a, Bit(Manipulator)))
        || !(Remote in s ==> HasAll(a, Bit(Remote)));
    }
  }

  /** One combination has all bits of another iff it combines a superset of its flags. */
  lemma MaskSubset(s: set<Flag>, t: set<Flag>)
    ensures HasAll(Mask(t), Mask(s)) <==> s <= t
  {
    HasAllOf(Mask(t), s);
    MaskHasFlag(t, Busy);
    MaskHasFlag(t, Ready);
    MaskHasFlag(t, Slam);
    MaskHasFlag(t, Manipulator);
    MaskHasFlag(t, Remote);
    forall f: Flag
      ensures HasAll(Mask(t), Bit(f)) <==> f in t
    {
      match f
      case Busy =>
      case Ready =>
      case Slam =>
      case Manipulator =>
      case Remote =>
    }
  }
}
