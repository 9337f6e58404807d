/**
 Congestion window and retransmission timeout arithmetic (`updateWndOnSuccess`,
 `updateRTO`), with the widths of the source: windows and `incr` are 32-bit.
 */
module Control {
  import opened Arithmetic

  const MIN_SSTHRESH: nat := 2
  const RESEND_VALUE: nat := 2
  const DEFAULT_WND: nat := 64

  datatype Window = Window(cwnd: nat, rwnd: nat, ssthresh: nat, incr: nat)

  /** `SessionInfo()` */
  const INITIAL_WINDOW := Window(1, DEFAULT_WND, MIN_SSTHRESH, 0)

  /** `updateWndOnSuccess` */
  function OnSuccess(w: Window, mtu: nat, rwnd: nat): Window
    requires 0 < mtu
  {
    if w.cwnd < w.ssthresh then
      Window(Min(rwnd, U32(w.cwnd + 1)), rwnd, w.ssthresh, U32(w.incr + mtu))
    else
      var incr := CaIncr(w.incr, mtu);
      Window(Min(rwnd, CaCwnd(w.cwnd, incr, mtu)), rwnd, w.ssthresh, incr)
  }

  /** Congestion avoidance: the new `incr` ... */
  function CaIncr(incr: nat, mtu: nat): nat
    requires 0 < mtu
  {
    CaSum(Max(incr, mtu), Quot(U32(Times(mtu, mtu)), Max(incr, mtu)), mtu)
  }

  function CaSum(base: nat, quotient: nat, mtu: nat): nat {
    U32(base + quotient + mtu / 16)
  }

  /** ... and the new `cwnd`. */
  function CaCwnd(cwnd: nat, incr: nat, mtu: nat): nat
    requires 0 < mtu
  {
    CaPick(cwnd, Times(U32(cwnd + 1), mtu), incr, mtu)
  }

  function CaPick(cwnd: nat, product: int, incr: nat, mtu: nat): nat
    requires 0 < mtu
  {
    if U32(product) <= incr then Quot(U32(incr + mtu - 1), mtu) else cwnd
  }

  method GrowIncr(incr: nat, mtu: nat) returns (grown: nat)
    requires 0 < mtu
    ensures grown == CaIncr(incr, mtu)
  {
    grown := incr;
    if grown < mtu { grown := mtu; }
    TimesIs(mtu, mtu);
    QuotIs(U32(mtu * mtu), grown);
    grown := U32(grown + U32(mtu * mtu) / grown + mtu / 16);
  }

  method GrowCwnd(cwnd: nat, incr: nat, mtu: nat) returns (grown: nat)
    requires 0 < mtu
    ensures grown == CaCwnd(cwnd, incr, mtu)
  {
    TimesIs(U32(cwnd + 1), mtu);
    var product := U32(cwnd + 1) * mtu;
    grown := PickCwnd(cwnd, product, incr, mtu);
  }

  method PickCwnd(cwnd: nat, product: int, incr: nat, mtu: nat) returns (picked: nat)
    requires 0 < mtu
    ensures picked == CaPick(cwnd, product, incr, mtu)
  {
    picked := cwnd;
    QuotIs(U32(incr + mtu - 1), mtu);
    if U32(product) <= incr {
      picked := U32(incr + mtu - 1) / mtu;
    }
  }

  /** The same rule over unbounded integers. */
  function OnSuccessIdeal(w: Window, mtu: nat, rwnd: nat): Window
    requires 0 < mtu
  {
    if w.cwnd < w.ssthresh then Window(Min(rwnd, w.cwnd + 1), rwnd, w.ssthresh, w.incr + mtu)
    else
      var incr := CaIncrIdeal(w.incr, mtu);
      Window(Min(rwnd, CaCwndIdeal(w.cwnd, incr, mtu)), rwnd, w.ssthresh, incr)
  }

  function CaIncrIdeal(incr: nat, mtu: nat): nat
    requires 0 < mtu
  {
    Max(incr, mtu) + mtu * mtu / Max(incr, mtu) + mtu / 16
  }

  function CaCwndIdeal(cwnd: nat, incr: nat, mtu: nat): nat
    requires 0 < mtu
  {
    if (cwnd + 1) * mtu <= incr then (incr + mtu - 1) / mtu else cwnd
  }

  /** What one acknowledgement adds to `incr` at most. */
  function Growth(mtu: nat): nat { mtu + mtu / 16 }

  lemma ProductBound(a: nat, b: nat, x: nat, y: nat)
    requires a <= x && b <= y
    ensures a * b <= x * y
  {
    MulMonotone(a, b, y);
    MulMonotone(y, a, x);
    assert a * y == y * a && x * y == y * x;
  }

  lemma QuotientBound(mtu: nat, base: nat)
    requires 0 < mtu <= base
    ensures mtu * mtu / base <= mtu
  {
    var q := mtu * mtu / base;
    ProductBound(mtu, mtu, base, mtu);
    assert base * q <= mtu * mtu <= base * mtu;
    if q >= mtu + 1 { MulMonotone(base, mtu + 1, q); }
  }

  lemma CeilAtLeast(incr: nat, mtu: nat, n: nat)
    requires 0 < mtu && n * mtu <= incr
    ensures (incr + mtu - 1) / mtu >= n
  {
    var q := (incr + mtu - 1) / mtu;
    assert mtu * (q + 1) == mtu * q + mtu > incr + mtu - 1;
    if q + 1 <= n { MulMonotone(mtu, q + 1, n); }
  }

  lemma CaIncrExact(incr: nat, mtu: nat)
    requires 0 < mtu < TWO_16 && Max(incr, mtu) + Growth(mtu) < TWO_32
    ensures CaIncr(incr, mtu) == CaIncrIdeal(incr, mtu)
    ensures Max(incr, mtu) <= CaIncr(incr, mtu) <= Max(incr, mtu) + Growth(mtu)
  {
    var square := SquareFits(mtu, Max(incr, mtu));
    TimesIs(mtu, mtu);
    QuotIs(square, Max(incr, mtu));
    CaSumExact(Max(incr, mtu), square / Max(incr, mtu), mtu);
  }

  lemma SquareFits(mtu: nat, base: nat) returns (square: nat)
    requires 0 < mtu < TWO_16 && mtu <= base
    ensures square == mtu * mtu == U32(mtu * mtu) && square / base <= mtu
  {
    square := mtu * mtu;
    ProductBound(mtu, mtu, TWO_16 - 1, TWO_16 - 1);
    QuotientBound(mtu, base);
  }

  lemma CaSumExact(base: nat, quotient: nat, mtu: nat)
    requires quotient <= mtu && base + Growth(mtu) < TWO_32
    ensures CaSum(base, quotient, mtu) == base + quotient + mtu / 16
    ensures base <= CaSum(base, quotient, mtu) <= base + Growth(mtu)
  {}

  lemma CaCwndExact(cwnd: nat, incr: nat, mtu: nat)
    requires 0 < mtu < TWO_16 && cwnd < TWO_16 && incr + mtu <= TWO_32
    ensures CaCwnd(cwnd, incr, mtu) == CaCwndIdeal(cwnd, incr, mtu)
    ensures CaCwnd(cwnd, incr, mtu) >= cwnd
  {
    var product := ProductFits(cwnd, mtu);
    TimesIs(U32(cwnd + 1), mtu);
    QuotIs(U32(incr + mtu - 1), mtu);
    if product <= incr { CeilAtLeast(incr, mtu, cwnd + 1); }
    assert CaCwnd(cwnd, incr, mtu) == CaPick(cwnd, product, incr, mtu);
  }

  lemma ProductFits(cwnd: nat, mtu: nat) returns (product: nat)
    requires mtu < TWO_16 && cwnd < TWO_16
    ensures product == (cwnd + 1) * mtu == U32(cwnd + 1) * mtu == U32(product)
    ensures product <= TWO_32 - TWO_16
  {
    product := (cwnd + 1) * mtu;
    ProductBound(cwnd + 1, mtu, TWO_16, TWO_16 - 1);
  }

  /** The window never exceeds the advertised one, overflow or not. */
  lemma OnSuccessCapped(w: Window, mtu: nat, rwnd: nat)
    requires 0 < mtu
    ensures OnSuccess(w, mtu, rwnd).cwnd <= rwnd
    ensures OnSuccess(w, mtu, rwnd).ssthresh == w.ssthresh
  {}

  /**
   An acknowledgement makes the window zero exactly when it pushes `incr`, in congestion
   avoidance, into the last `mtu - 1` values of its 32 bits, where the rounding-up sum wraps.
   */
  lemma CwndZeroIff(w: Window, mtu: nat, rwnd: nat)
    requires 0 < mtu < TWO_16 && 1 <= w.cwnd < TWO_16 && 1 <= rwnd
    ensures OnSuccess(w, mtu, rwnd).cwnd == 0 <==> w.cwnd >= w.ssthresh && CaIncr(w.incr, mtu) > TWO_32 - mtu
  {
    if w.cwnd >= w.ssthresh {
      var incr := CaIncr(w.incr, mtu);
      if incr > TWO_32 - mtu {
        CaCwndWraps(w.cwnd, incr, mtu);
      } else {
        CaCwndExact(w.cwnd, incr, mtu);
      }
    }
  }

  /** The next acknowledgement opens a window of zero again. */
  lemma ZeroReopens(w: Window, mtu: nat, rwnd: nat)
    requires 0 < mtu && 1 <= rwnd
    ensures w.cwnd == 0 < w.ssthresh ==> OnSuccess(w, mtu, rwnd).cwnd == 1
  {}

  lemma CaCwndWraps(cwnd: nat, incr: nat, mtu: nat)
    requires 0 < mtu < TWO_16 && cwnd < TWO_16 && TWO_32 - mtu < incr < TWO_32
    ensures CaCwnd(cwnd, incr, mtu) == 0
  {
    var product := ProductFits(cwnd, mtu);
    var wrapped := incr + mtu - 1 - TWO_32;
    TimesIs(U32(cwnd + 1), mtu);
    QuotIs(wrapped, mtu);
    assert U32(incr + mtu - 1) == wrapped;
    DivModUnique(wrapped, mtu, 0, wrapped);
  }

  /** The window after a sequence of acknowledgements, each with its advertised window. */
  function OnAcks(mtu: nat, rwnds: seq<nat>): Window
    requires 0 < mtu
  {
    if rwnds == [] then INITIAL_WINDOW
    else OnSuccess(OnAcks(mtu, rwnds[..|rwnds| - 1]), mtu, rwnds[|rwnds| - 1])
  }

  /** `incr` is below one mtu only while the window is still in slow start. */
  predicate Started(w: Window, mtu: nat) {
    w.incr < mtu ==> w.cwnd < w.ssthresh
  }

  /**
   While `incr` stays one growth and one mtu below 2^32, an acknowledgement overflows
   nothing, keeps `1 <= cwnd <= rwnd` and never shrinks the window below both its old
   size and `rwnd`.
   */
  lemma OnSuccessExact(w: Window, mtu: nat, rwnd: nat)
    requires 0 < mtu < TWO_16 && w.cwnd < TWO_16 && Started(w, mtu)
    requires w.incr + Growth(mtu) + mtu <= TWO_32
    ensures OnSuccess(w, mtu, rwnd) == OnSuccessIdeal(w, mtu, rwnd)
    ensures Started(OnSuccess(w, mtu, rwnd), mtu)
    ensures OnSuccess(w, mtu, rwnd).incr <= w.incr + Growth(mtu)
    ensures Min(w.cwnd, rwnd) <= OnSuccess(w, mtu, rwnd).cwnd <= rwnd
  {
    if w.cwnd >= w.ssthresh {
      var incr := CaIncr(w.incr, mtu);
      assert incr == CaIncrIdeal(w.incr, mtu) && mtu <= incr <= w.incr + Growth(mtu) by {
        CaIncrExact(w.incr, mtu);
      }
      var cwnd := CaCwnd(w.cwnd, incr, mtu);
      assert cwnd == CaCwndIdeal(w.cwnd, incr, mtu) >= w.cwnd by {
        CaCwndExact(w.cwnd, incr, mtu);
      }
      assert OnSuccess(w, mtu, rwnd) == Window(Min(rwnd, cwnd), rwnd, w.ssthresh, incr);
    }
  }

  /**
   One acknowledgement without overflow, `b` being `incr` and at least one mtu: `incr` becomes
   `b` plus mtu^2 / b plus mtu / 16, both rounded down (`q`, `g`); the window becomes `incr` in
   mtus, rounded up (`c`), once it has room for one more; and never above the advertised one.
   */
  predicate Grows(w: Window, mtu: nat, rwnd: nat, w': Window, q: nat, g: nat, c: nat) {
    var b := Max(w.incr, mtu);
    && w'.rwnd == rwnd && w'.ssthresh == w.ssthresh
    && if w.cwnd < w.ssthresh then w'.cwnd == Min(rwnd, w.cwnd + 1) && w'.incr == w.incr + mtu
       else && b * q <= mtu * mtu < b * (q + 1) && 16 * g <= mtu < 16 * (g + 1) && w'.incr == b + q + g
            && (if (w.cwnd + 1) * mtu <= w'.incr then c * mtu < w'.incr + mtu && w'.incr <= c * mtu else c == w.cwnd)
            && w'.cwnd == Min(rwnd, c)
  }

  lemma WindowGrows(w: Window, mtu: nat, rwnd: nat)
    requires 0 < mtu < TWO_16 && w.cwnd < TWO_16 && Max(w.incr, mtu) + Growth(mtu) + mtu <= TWO_32
    ensures exists q: nat, g: nat, c: nat :: Grows(w, mtu, rwnd, OnSuccess(w, mtu, rwnd), q, g, c)
  {
    if w.cwnd < w.ssthresh {
      assert w.incr + mtu < TWO_32;
      assert Grows(w, mtu, rwnd, OnSuccess(w, mtu, rwnd), 0, 0, 0);
    } else {
      var incr := CaIncr(w.incr, mtu);
      var q, g := IncrGrows(w.incr, mtu);
      var c := CwndGrows(w.cwnd, incr, mtu);
      assert Grows(w, mtu, rwnd, OnSuccess(w, mtu, rwnd), q, g, c);
    }
  }

  lemma IncrGrows(incr: nat, mtu: nat) returns (q: nat, g: nat)
    requires 0 < mtu < TWO_16 && Max(incr, mtu) + Growth(mtu) + mtu <= TWO_32
    ensures var b := Max(incr, mtu);
            && b * q <= mtu * mtu < b * (q + 1) && 16 * g <= mtu < 16 * (g + 1)
            && CaIncr(incr, mtu) == b + q + g && CaIncr(incr, mtu) + mtu <= TWO_32
  {
    var b := Max(incr, mtu);
    g := mtu / 16;
    q := FloorBetween(mtu * mtu, b);
    CaIncrExact(incr, mtu);
  }

  lemma FloorBetween(x: nat, b: nat) returns (q: nat)
    requires 0 < b
    ensures q == x / b && b * q <= x < b * (q + 1)
  {
    q := x / b;
    assert x == b * q + x % b;
  }

  lemma CwndGrows(cwnd: nat, incr: nat, mtu: nat) returns (c: nat)
    requires 0 < mtu < TWO_16 && cwnd < TWO_16 && incr + mtu <= TWO_32
    ensures c == CaCwnd(cwnd, incr, mtu)
    ensures if (cwnd + 1) * mtu <= incr then c * mtu < incr + mtu && incr <= c * mtu else c == cwnd
  {
    c := CaCwndIdeal(cwnd, incr, mtu);
    CaCwndExact(cwnd, incr, mtu);
    if (cwnd + 1) * mtu <= incr { CeilBetween(incr, mtu); }
  }

  lemma CeilBetween(incr: nat, mtu: nat)
    requires 0 < mtu
    ensures var c := (incr + mtu - 1) / mtu; c * mtu < incr + mtu && incr <= c * mtu
  {
    var x := incr + mtu - 1;
    assert x == mtu * (x / mtu) + x % mtu;
  }

  /** Over any run of n acknowledgements with n growths and one mtu within 2^32, all of it holds. */
  lemma {:induction false} CwndOverRun(mtu: nat, rwnds: seq<nat>)
    requires 0 < mtu < TWO_16 && forall i :: 0 <= i < |rwnds| ==> 1 <= rwnds[i] < TWO_16
    requires |rwnds| * Growth(mtu) + mtu <= TWO_32
    ensures var w := OnAcks(mtu, rwnds);
            && 1 <= w.cwnd < TWO_16
            && Started(w, mtu) && w.incr <= |rwnds| * Growth(mtu)
            && (rwnds != [] ==> w.cwnd <= rwnds[|rwnds| - 1])
    ensures rwnds != [] ==>
              var before := OnAcks(mtu, rwnds[..|rwnds| - 1]);
              && OnAcks(mtu, rwnds) == OnSuccessIdeal(before, mtu, rwnds[|rwnds| - 1])
              && OnAcks(mtu, rwnds).cwnd >= Min(before.cwnd, rwnds[|rwnds| - 1])
  {
    if rwnds != [] {
      var n := |rwnds| - 1;
      assert |rwnds| * Growth(mtu) == n * Growth(mtu) + Growth(mtu);
      CwndOverRun(mtu, rwnds[..n]);
      OnSuccessExact(OnAcks(mtu, rwnds[..n]), mtu, rwnds[n]);
    }
  }

  // The way to a window of zero

  lemma SumAtMost(x: nat, q: nat, product: nat)
    requires 1 <= x && 1 <= q && x * q <= product
    ensures x + q <= product + 1
  {
    assert (x - 1) * (q - 1) >= 0;
    assert (x - 1) * (q - 1) == x * q - x - q + 1;
  }

  const MAX_SQUARE: nat := (TWO_16 - 1) * (TWO_16 - 1)

  /** The quotient that congestion avoidance adds: nothing above mtu^2, and never enough to pass it by more than one. */
  lemma QuotientRoom(incr: nat, mtu: nat) returns (q: nat)
    requires 0 < mtu < TWO_16 && mtu <= incr
    ensures q == Quot(U32(Times(mtu, mtu)), incr)
    ensures incr > mtu * mtu ==> q == 0
    ensures incr <= mtu * mtu ==> incr + q <= MAX_SQUARE + 1
  {
    var square := SquareFits(mtu, incr);
    ProductBound(mtu, mtu, TWO_16 - 1, TWO_16 - 1);
    TimesIs(mtu, mtu);
    QuotIs(square, incr);
    q := square / incr;
    if incr > square {
      DivModUnique(square, incr, 0, square);
    } else if q >= 1 {
      assert incr * q <= square;
      SumAtMost(incr, q, square);
    }
  }

  /** In congestion avoidance `incr` always grows, above mtu^2 by mtu / 16, and never jumps over the last mtu values. */
  lemma CaIncrGrows(incr: nat, mtu: nat)
    requires 16 <= mtu < TWO_16 && mtu <= incr <= TWO_32 - mtu
    ensures incr < CaIncr(incr, mtu) < TWO_32
    ensures incr > mtu * mtu ==> CaIncr(incr, mtu) == incr + mtu / 16
  {
    var q := QuotientRoom(incr, mtu);
    SumGrows(incr, q, mtu);
    assert CaIncr(incr, mtu) == CaSum(incr, q, mtu);
  }

  lemma SumGrows(incr: nat, q: nat, mtu: nat)
    requires 16 <= mtu < TWO_16 && incr <= TWO_32 - mtu && (q == 0 || incr + q <= MAX_SQUARE + 1)
    ensures CaSum(incr, q, mtu) == incr + q + mtu / 16 && incr < CaSum(incr, q, mtu) < TWO_32
  {}

  /** The window has been opened and `incr` has grown for `k` acknowledgements. */
  predicate Climbing(w: Window, mtu: nat, k: nat) {
    2 == w.ssthresh <= w.cwnd < TWO_16 && mtu + k <= w.incr + 1 && mtu <= w.incr <= TWO_32 - mtu
  }

  lemma ClimbStep(w: Window, mtu: nat, rwnd: nat, k: nat)
    requires 16 <= mtu < TWO_16 && 2 <= rwnd < TWO_16 && Climbing(w, mtu, k)
    ensures var w' := OnSuccess(w, mtu, rwnd); w'.cwnd == 0 || Climbing(w', mtu, k + 1)
  {
    CaIncrGrows(w.incr, mtu);
    CwndZeroIff(w, mtu, rwnd);
    var incr := CaIncr(w.incr, mtu);
    if incr <= TWO_32 - mtu {
      CaCwndExact(w.cwnd, incr, mtu);
      assert OnSuccess(w, mtu, rwnd) == Window(Min(rwnd, CaCwnd(w.cwnd, incr, mtu)), rwnd, w.ssthresh, incr);
    }
  }

  lemma {:induction false} ClimbsOrCloses(mtu: nat, rwnds: seq<nat>, k: nat) returns (z: nat)
    requires 16 <= mtu < TWO_16 && forall i :: 0 <= i < |rwnds| ==> 2 <= rwnds[i] < TWO_16
    requires 1 <= k <= |rwnds|
    ensures z <= k && (OnAcks(mtu, rwnds[..z]).cwnd == 0 || (z == k && Climbing(OnAcks(mtu, rwnds[..k]), mtu, k)))
  {
    assert rwnds[..k][..k - 1] == rwnds[..k - 1] && rwnds[..k][k - 1] == rwnds[k - 1];
    if k == 1 {
      assert OnAcks(mtu, rwnds[..0]) == INITIAL_WINDOW;
      z := 1;
    } else {
      z := ClimbsOrCloses(mtu, rwnds, k - 1);
      if OnAcks(mtu, rwnds[..z]).cwnd != 0 {
        ClimbStep(OnAcks(mtu, rwnds[..k - 1]), mtu, rwnds[k - 1], k - 1);
        z := k;
      }
    }
  }

  /**
   Every sequence of 2^32 acknowledgements with advertised windows of at least two closes
   the window to zero on the way.
   */
  lemma WindowCloses(mtu: nat, rwnds: seq<nat>)
    requires 16 <= mtu < TWO_16 && forall i :: 0 <= i < |rwnds| ==> 2 <= rwnds[i] < TWO_16
    requires |rwnds| >= TWO_32
    ensures exists k: nat :: k <= |rwnds| && OnAcks(mtu, rwnds[..k]).cwnd == 0
  {
    var z := ClimbsOrCloses(mtu, rwnds, |rwnds|);
    assert z <= |rwnds| && OnAcks(mtu, rwnds[..z]).cwnd == 0;
  }

  /** The window a resent packet leaves in the loop's own copy of the session. */
  function Backoff(cwnd: nat): nat {
    Max(MIN_SSTHRESH, cwnd / 2) + RESEND_VALUE
  }

  function Pow2(k: nat): nat { if k == 0 then 1 else 2 * Pow2(k - 1) }

  lemma {:induction false} Pow2Positive(k: nat)
    ensures Pow2(k) >= 1
  {
    if k > 0 { Pow2Positive(k - 1); }
  }

  /** The window of the copy after `k` resent packets. */
  function Backoffs(cwnd: nat, k: nat): nat
    decreases k
  {
    if k == 0 then cwnd else Backoffs(Backoff(cwnd), k - 1)
  }

  lemma HalfThen(x: nat, p: nat)
    requires p >= 1
    ensures x / 2 / p == x / (2 * p)
  {
    var q, r := x / 2, x % 2;
    var a, b := q / p, q % p;
    assert q == p * a + b;
    assert x == 2 * p * a + (2 * b + r);
    DivModUnique(x, 2 * p, a, 2 * b + r);
  }

  /** What a window has above four is halved by every resent packet; a smaller one becomes four. */
  lemma {:induction false} BackoffsHalve(cwnd: nat, k: nat)
    requires k >= 1
    ensures Pow2(k) >= 1 && Backoffs(cwnd, k) == 4 + (Max(4, cwnd) - 4) / Pow2(k)
    decreases k
  {
    Pow2Positive(k);
    if k == 1 {
      assert Backoffs(cwnd, 1) == Backoffs(Backoff(cwnd), 0) == Backoff(cwnd);
      assert Pow2(1) == 2 * Pow2(0) == 2;
    } else {
      BackoffsHalve(Backoff(cwnd), k - 1);
      HalfThen(Max(4, cwnd) - 4, Pow2(k - 1));
    }
  }

  // Retransmission timeout

  datatype Rtt = Rtt(srtt: nat, rttval: nat, rto: nat)

  function Clamp(x: nat, lo: nat, hi: nat): nat { Min(Max(lo, x), hi) }

  function Gap(a: nat, b: nat): nat { if a <= b then b - a else a - b }

  /** `updateRTO`; `lo` and `hi` are the protocol's smallest and largest timeout. */
  function UpdateRto(e: Rtt, rtt: nat, lo: nat, hi: nat): Rtt {
    var srtt := if e.srtt == 0 then rtt else Max(1, (7 * e.srtt + rtt) / 8);
    var rttval := if e.srtt == 0 then rtt / 2 else (3 * e.rttval + Gap(rtt, e.srtt)) / 4;
    Rtt(srtt, rttval, Clamp(srtt + 4 * rttval, lo, hi))
  }

  function UpdateRtos(e: Rtt, samples: seq<nat>, lo: nat, hi: nat): Rtt {
    if samples == [] then e
    else UpdateRto(UpdateRtos(e, samples[..|samples| - 1], lo, hi), samples[|samples| - 1], lo, hi)
  }

  /**
   One sample, in the words of section 2 of RFC 6298: the first sets mean and variation;
   a later one counts for an eighth of the mean and its distance from the old mean for a
   quarter of the variation, both rounded down; the timeout is the mean and four
   variations, within its bounds.
   */
  predicate Weighs(e: Rtt, rtt: nat, e': Rtt, lo: nat, hi: nat) {
    && (e.srtt == 0 ==> e'.srtt == rtt && 2 * e'.rttval <= rtt <= 2 * e'.rttval + 1)
    && (e.srtt != 0 ==>
          && 1 <= e'.srtt && (7 * e.srtt + rtt < 8 ==> e'.srtt == 1)
          && (7 * e.srtt + rtt >= 8 ==> 0 <= 7 * e.srtt + rtt - 8 * e'.srtt < 8)
          && 0 <= 3 * e.rttval + Gap(rtt, e.srtt) - 4 * e'.rttval < 4)
    && e'.rto == Min(Max(lo, e'.srtt + 4 * e'.rttval), hi)
  }

  /** There is only one estimate that weighs a sample so. */
  lemma WeighsOnce(e: Rtt, rtt: nat, a: Rtt, b: Rtt, lo: nat, hi: nat)
    requires Weighs(e, rtt, a, lo, hi) && Weighs(e, rtt, b, lo, hi)
    ensures a == b
  {}

  lemma UpdateWeighs(e: Rtt, rtt: nat, lo: nat, hi: nat)
    ensures Weighs(e, rtt, UpdateRto(e, rtt, lo, hi), lo, hi)
  {}

  /** Every sample of every sequence is weighed so, whatever the bounds of the protocol. */
  lemma EstimatesWeigh(e: Rtt, samples: seq<nat>, lo: nat, hi: nat)
    ensures UpdateRtos(e, [], lo, hi) == e
    ensures forall k :: 0 <= k < |samples| ==>
              Weighs(UpdateRtos(e, samples[..k], lo, hi), samples[k], UpdateRtos(e, samples[..k + 1], lo, hi), lo, hi)
  {
    forall k | 0 <= k < |samples|
      ensures Weighs(UpdateRtos(e, samples[..k], lo, hi), samples[k], UpdateRtos(e, samples[..k + 1], lo, hi), lo, hi)
    {
      var s := samples[..k + 1];
      assert s[..|s| - 1] == samples[..k] && s[|s| - 1] == samples[k];
      UpdateWeighs(UpdateRtos(e, samples[..k], lo, hi), samples[k], lo, hi);
    }
  }

  /** From a fresh estimator, samples in `[m, M]` keep the mean in `[m, M]` and the variation at most `M`. */
  lemma {:induction false} RttStaysInRange(samples: seq<nat>, m: nat, M: nat, lo: nat, hi: nat, rto: nat)
    requires samples != [] && 1 <= m && forall i :: 0 <= i < |samples| ==> m <= samples[i] <= M
    ensures var e := UpdateRtos(Rtt(0, 0, rto), samples, lo, hi); m <= e.srtt <= M && e.rttval <= M
    ensures lo <= hi ==> lo <= UpdateRtos(Rtt(0, 0, rto), samples, lo, hi).rto <= hi
  {
    var n := |samples| - 1;
    if n > 0 {
      RttStaysInRange(samples[..n], m, M, lo, hi, rto);
    }
    assert m <= samples[n] <= M;
  }

  /** The estimator after `n` equal samples. */
  function Steady(e: Rtt, r: nat, n: nat, lo: nat, hi: nat): Rtt
    decreases n
  {
    if n == 0 then e else Steady(UpdateRto(e, r, lo, hi), r, n - 1, lo, hi)
  }

  lemma {:induction false} SteadyAdd(e: Rtt, r: nat, m: nat, n: nat, lo: nat, hi: nat)
    ensures Steady(Steady(e, r, m, lo, hi), r, n, lo, hi) == Steady(e, r, m + n, lo, hi)
    decreases m
  {
    if m > 0 { SteadyAdd(UpdateRto(e, r, lo, hi), r, m - 1, n, lo, hi); }
  }

  /** At the mean, the variation decays to nothing, so the timeout settles at the clamped sample. */
  lemma {:induction false} VariationDecays(e: Rtt, r: nat, lo: nat, hi: nat) returns (n: nat)
    requires e.srtt == r >= 1
    ensures n > 0
    ensures Steady(e, r, n, lo, hi) == Rtt(r, 0, Clamp(r, lo, hi))
    decreases e.rttval
  {
    var e' := UpdateRto(e, r, lo, hi);
    if e'.rttval == 0 {
      n := 1;
      assert Steady(e, r, 1, lo, hi) == Steady(e', r, 0, lo, hi);
    } else {
      var k := VariationDecays(e', r, lo, hi);
      n := k + 1;
    }
  }

  /** A mean above a constant sample comes down to it. */
  lemma {:induction false} MeanComesDown(e: Rtt, r: nat, lo: nat, hi: nat) returns (n: nat)
    requires e.srtt >= r >= 1
    ensures Steady(e, r, n, lo, hi).srtt == r
    decreases e.srtt
  {
    if e.srtt == r {
      n := 0;
    } else {
      var k := MeanComesDown(UpdateRto(e, r, lo, hi), r, lo, hi);
      n := k + 1;
    }
  }

  /** A mean below a constant sample never reaches it: the rounding is always downwards. */
  lemma {:induction false} MeanStaysBelow(e: Rtt, r: nat, n: nat, lo: nat, hi: nat)
    requires 1 <= e.srtt < r
    ensures 1 <= Steady(e, r, n, lo, hi).srtt < r
    decreases n
  {
    if n > 0 { MeanStaysBelow(UpdateRto(e, r, lo, hi), r, n - 1, lo, hi); }
  }

  ghost predicate SettlesAt(e: Rtt, r: nat, n: nat, lo: nat, hi: nat) {
    Steady(e, r, n, lo, hi) == Rtt(r, 0, Clamp(r, lo, hi))
  }

  /**
   On a constant stream of samples the estimator settles at the clamped sample, with no
   variation left, exactly when it starts fresh or with a mean not below the sample.
   */
  lemma SettlesIff(e: Rtt, r: nat, lo: nat, hi: nat)
    requires r >= 1
    ensures (exists n: nat :: n > 0 && SettlesAt(e, r, n, lo, hi)) <==> e.srtt == 0 || e.srtt >= r
  {
    if e.srtt == 0 || e.srtt >= r {
      var start := if e.srtt == 0 then 1 else 0;
      assert Steady(e, r, start, lo, hi).srtt >= r by {
        assert Steady(e, r, 1, lo, hi) == Steady(UpdateRto(e, r, lo, hi), r, 0, lo, hi);
      }
      var m := MeanComesDown(Steady(e, r, start, lo, hi), r, lo, hi);
      SteadyAdd(e, r, start, m, lo, hi);
      var n := VariationDecays(Steady(e, r, start + m, lo, hi), r, lo, hi);
      SteadyAdd(e, r, start + m, n, lo, hi);
      assert SettlesAt(e, r, start + m + n, lo, hi);
    } else {
      forall n: nat | n > 0 ensures !SettlesAt(e, r, n, lo, hi) {
        MeanStaysBelow(e, r, n, lo, hi);
      }
    }
  }
}
