// Times in nanoseconds and integer division as C has them (check_row in
// circular_buffer/circular_buffer.c, cf_add in cuckoo_filter/cuckoo_filter_expire.c).

module CTime {
  import opened Bits
  import opened Common

  const NS_PER_SECOND := 1_000_000_000.0

  function Seconds(ns: real): int {
    Truncate(ns / NS_PER_SECOND)
  }

  // Division and remainder as in C.
  function CDiv(a: int, b: nat): int
    requires b > 0
  {
    if a >= 0 then a / b else -((-a) / b)
  }

  function CMod(a: int, b: nat): int
    requires b > 0
  {
    if a >= 0 then a % b else -((-a) % b)
  }

  // The number of the interval a time lies in.
  function Interval(ns: real, spr: nat): int
    requires spr > 0
  {
    CDiv(Seconds(ns), spr)
  }

  // A time cut down to the start of its interval.
  lemma StartOfInterval(t: int, spr: nat)
    requires spr > 0
    ensures t - CMod(t, spr) == CDiv(t, spr) * spr
    ensures CDiv(t - CMod(t, spr), spr) == CDiv(t, spr)
  {
    hide CDiv, CMod;
    var a := if t >= 0 then t else -t;
    var q, r := a / spr, a % spr;
    CutDown(a, spr);
    CSigns(a, spr);
    Negated(q, spr);
    assert q * spr >= 0;
    CSigns(q * spr, spr);
  }

  lemma CSigns(a: int, m: nat)
    requires m > 0 && a >= 0
    ensures CDiv(a, m) == a / m && CDiv(-a, m) == -(a / m)
    ensures CMod(a, m) == a % m && CMod(-a, m) == -(a % m)
  {
    DivModUnique(0, m, 0, 0);
  }

  lemma CutDown(a: nat, m: nat)
    requires m > 0
    ensures a - a % m == (a / m) * m >= 0 && ((a / m) * m) / m == a / m
  {
    var q := a / m;
    assert a == m * q + a % m;
    assert q * m == m * q;
    DivModUnique(m * q, m, q, 0);
  }

  lemma Negated(q: int, m: int)
    ensures (-q) * m == -(q * m)
  {
  }

  // A whole number of intervals, handed back in nanoseconds, is recognised.
  lemma IntervalOfStart(iv: int, spr: nat)
    requires spr > 0 && iv >= 0
    ensures Interval((iv * spr) as real * NS_PER_SECOND, spr) == iv
  {
    var t := iv * spr;
    assert t >= 0;
    assert (t as real * NS_PER_SECOND) / NS_PER_SECOND == t as real;
    assert Seconds(t as real * NS_PER_SECOND) == t;
    assert spr * iv == t;
    DivModUnique(t, spr, iv, 0);
  }

  lemma CDivMonotone(a: int, b: int, m: nat)
    requires m > 0 && a <= b
    ensures CDiv(a, m) <= CDiv(b, m)
  {
    if a >= 0 {
      DivMonotone(a, b, m);
    } else if b < 0 {
      DivMonotone(-b, -a, m);
    } else {
      DivMonotone(0, b, m);
      DivMonotone(0, -a, m);
      DivModUnique(0, m, 0, 0);
    }
  }

  lemma DivMonotone(a: nat, b: nat, m: nat)
    requires m > 0 && a <= b
    ensures a / m <= b / m
  {
    var q, p := a / m, b / m;
    assert a == m * q + a % m && b == m * p + b % m;
    assert m * (q - p) == m * q - m * p;
    Multiple(m, q - p);
  }

  lemma IntervalMonotone(a: real, b: real, spr: nat)
    requires spr > 0 && a <= b
    ensures Interval(a, spr) <= Interval(b, spr)
  {
    assert a / NS_PER_SECOND <= b / NS_PER_SECOND;
    CDivMonotone(Seconds(a), Seconds(b), spr);
  }

  // Interval iv is the time from iv * spr seconds on, spr seconds long; around zero both
  // directions have one of their own, so interval zero is twice as long.
  lemma IntervalBounds(ns: real, spr: nat)
    requires spr > 0
    ensures ns >= 0.0 ==>
              var iv := Interval(ns, spr);
              && iv >= 0 && ((iv * spr) as real) * NS_PER_SECOND <= ns
              && ns < (((iv + 1) * spr) as real) * NS_PER_SECOND
    ensures Interval(-ns, spr) == -Interval(ns, spr)
  {
    hide CDiv;
    Mirrored(ns, spr);
    if ns >= 0.0 {
      var x := ns / NS_PER_SECOND;
      var t := x.Floor;
      CSigns(t, spr);
      var q := t / spr;
      assert t == spr * q + t % spr;
      assert q * spr == spr * q && (q + 1) * spr == spr * q + spr;
      Bound(x, ns, t, q * spr, (q + 1) * spr);
    }
  }

  lemma Bound(x: real, ns: real, t: int, lo: int, hi: int)
    requires x == ns / NS_PER_SECOND && t == x.Floor && lo <= t && t < hi
    ensures (lo as real) * NS_PER_SECOND <= ns
    ensures ns < (hi as real) * NS_PER_SECOND
  {
    var l, h := lo as real, hi as real;
    assert l <= t as real;
    assert (t + 1) as real <= h;
    assert x * NS_PER_SECOND == ns;
  }

  lemma Mirrored(ns: real, spr: nat)
    requires spr > 0
    ensures Interval(-ns, spr) == -Interval(ns, spr)
  {
    hide CDiv;
    var x := ns / NS_PER_SECOND;
    assert (-ns) / NS_PER_SECOND == -x;
    var t := Truncate(x);
    assert Truncate(-x) == -t;
    CSigns(if t >= 0 then t else -t, spr);
  }
}
