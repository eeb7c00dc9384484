/** Nanosecond counts as 64-bit floats, the scores of the rate limiter. */
module Float64 {

  const TWO_53 := 0x20_0000_0000_0000
  const TWO_59 := 0x800_0000_0000_0000
  const TWO_60 := 0x1000_0000_0000_0000
  const TWO_61 := 0x2000_0000_0000_0000

  /** The distance of neighbouring floats around a count below 2^63. */
  function Grain(t: nat): (g: nat)
    ensures 1 <= g <= 1024
    ensures t < TWO_61 ==> g <= 256
  {
    if t < TWO_53 then 1
    else if t < 0x40_0000_0000_0000 then 2
    else if t < 0x80_0000_0000_0000 then 4
    else if t < 0x100_0000_0000_0000 then 8
    else if t < 0x200_0000_0000_0000 then 16
    else if t < 0x400_0000_0000_0000 then 32
    else if t < TWO_59 then 64
    else if t < TWO_60 then 128
    else if t < TWO_61 then 256
    else if t < 0x4000_0000_0000_0000 then 512
    else 1024
  }

  /** A count in units of a grain, rounded to nearest with ties to the even number. */
  function Rounded(t: nat, g: nat): nat
    requires g > 0
  {
    var q, r := t / g, t % g;
    if 2 * r < g || (2 * r == g && q % 2 == 0) then q else q + 1
  }

  function Nearest(t: nat, g: nat): (n: int)
    requires g > 0
    ensures n >= 0
  {
    g * Rounded(t, g)
  }

  /** Conversion of a signed 64-bit count to the nearest float. */
  function Float64Score(t: int): int {
    if t >= 0 then Nearest(t, Grain(t)) else -Nearest(-t, Grain(-t))
  }

  lemma {:induction false} Scaled(g: nat, x: int, y: int)
    requires x <= y
    ensures g * x <= g * y
  {
  }

  lemma {:induction false} Stepped(g: nat, x: int)
    ensures g * (x + 1) == g * x + g
  {
  }

  lemma {:induction false} Divided(t: nat, g: nat)
    requires g > 0
    ensures t == g * (t / g) + t % g
  {
  }

  lemma {:induction false} QuotientMonotone(a: nat, b: nat, g: nat)
    requires g > 0 && a <= b
    ensures a / g <= b / g
  {
    Divided(a, g);
    Divided(b, g);
    Stepped(g, b / g);
    if b / g < a / g {
      Scaled(g, b / g + 1, a / g);
    }
  }

  lemma {:induction false} NearestClose(t: nat, g: nat)
    requires g > 0
    ensures 2 * t - g <= 2 * Nearest(t, g) <= 2 * t + g
  {
    Divided(t, g);
    Stepped(g, t / g);
  }

  /** A multiple of the grain bounds from above what it bounded before rounding. */
  lemma {:induction false} NearestBelow(t: nat, g: nat, m: nat)
    requires g > 0 && t <= g * m
    ensures Nearest(t, g) <= g * m
  {
    Divided(t, g);
    if t / g < m {
      Scaled(g, Rounded(t, g), m);
    } else {
      Scaled(g, m, t / g);
    }
  }

  lemma {:induction false} NearestAbove(t: nat, g: nat, m: nat)
    requires g > 0 && g * m <= t
    ensures g * m <= Nearest(t, g)
  {
    Divided(t, g);
    Stepped(g, t / g);
    if t / g < m {
      Scaled(g, t / g + 1, m);
    }
    Scaled(g, m, Rounded(t, g));
  }

  lemma {:induction false} NearestMonotone(a: nat, b: nat, g: nat)
    requires g > 0 && a <= b
    ensures Nearest(a, g) <= Nearest(b, g)
  {
    QuotientMonotone(a, b, g);
    Divided(a, g);
    Divided(b, g);
    Scaled(g, Rounded(a, g), Rounded(b, g));
  }

  /** A coarser count lies beyond the finer one's range of floats. */
  lemma {:induction false} Binades(a: nat, b: nat)
    requires Grain(a) < Grain(b)
    ensures a <= Grain(a) * TWO_53 && 2 * Grain(a) <= Grain(b) && Grain(b) * (TWO_53 / 2) <= b
  {
  }

  lemma {:induction false} ScoreMonotoneNat(a: nat, b: nat)
    requires a <= b
    ensures Float64Score(a) <= Float64Score(b)
  {
    var g, h := Grain(a), Grain(b);
    if g == h {
      NearestMonotone(a, b, g);
    } else {
      Binades(a, b);
      NearestBelow(a, g, TWO_53);
      NearestAbove(b, h, TWO_53 / 2);
      assert g * TWO_53 <= h * (TWO_53 / 2);
    }
  }

  lemma {:induction false} ScoreMonotone(a: int, b: int)
    requires a <= b
    ensures Float64Score(a) <= Float64Score(b)
  {
    hide Nearest, Grain;
    if a >= 0 {
      ScoreMonotoneNat(a, b);
    } else if b < 0 {
      ScoreMonotoneNat(-b, -a);
    }
  }

  /** Below 2^61 (the year 2043) a score is at most 128 nanoseconds off. */
  lemma {:induction false} ScoreClose(t: int)
    requires -TWO_61 < t < TWO_61
    ensures t - 128 <= Float64Score(t) <= t + 128
  {
    if t >= 0 {
      NearestClose(t, Grain(t));
    } else {
      NearestClose(-t, Grain(-t));
    }
  }

  /** Instants before 2^61 that are more than 256 nanoseconds apart keep their order. */
  lemma {:induction false} ScoreSeparates(a: int, b: int)
    requires 0 <= b < TWO_61 && a + 256 < b
    ensures Float64Score(a) < Float64Score(b)
  {
    ScoreMonotone(a, b - 257);
    ScoreClose(b - 257);
    ScoreClose(b);
  }

  /** The middle of 257 neighbouring instants with one score. */
  const PLATEAU := TWO_60 + 512

  lemma {:induction false} PlateauScore(t: int)
    requires PLATEAU - 128 <= t <= PLATEAU + 128
    ensures Float64Score(t) == PLATEAU
  {
  }
}
