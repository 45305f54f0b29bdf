/** The demo's string hash: a Horner-style fold over the UTF-16 code units with
    multiplier 31 in 32-bit two's-complement arithmetic, followed by `Math.abs`. */
module StringHash {
  import opened JsNumber
  import opened JsString

  /** One pass of the loop body on accumulator `hash` and code unit `c`:
      `(hash << 5) - hash + c` (the shift converts `hash` to int32 and wraps its
      result), then `hash & hash`, which is ToInt32 of that sum. */
  function Step(hash: int, c: CodeUnit): int {
    var shifted := ToInt32(ToInt32(hash) * 32);
    ToInt32(shifted - hash + c as int)
  }

  /** Shift-and-subtract is multiplication by 31 modulo 2^32: from a signed 32-bit
      accumulator, one step gives ToInt32(31 * hash + c). */
  lemma {:induction false} StepIsTimes31(hash: int, c: CodeUnit)
    requires IsInt32(hash)
    ensures IsInt32(Step(hash, c))
    ensures Step(hash, c) == ToInt32(31 * hash + c as int)
  {
    var shifted := ToInt32(hash * 32);
    var k := (hash * 32 - shifted) / Two32;
    assert hash * 32 - shifted == Two32 * k;
    assert (shifted - hash + c as int) - (31 * hash + c as int) == Two32 * -k;
    ModShift(0, -k);
    ToInt32Congruent(shifted - hash + c as int, 31 * hash + c as int);
  }

  /** The accumulator after the loop has consumed all of `s`. */
  function Accumulator(s: Text): (h: int)
    ensures IsInt32(h)
  {
    if s == [] then 0 else Step(Accumulator(s[..|s| - 1]), s[|s| - 1])
  }

  /** The accumulator over the first `n` code units, from the one over the first `n - 1`. */
  lemma AccumulatorPrefix(s: Text, n: nat)
    requires 0 < n <= |s|
    ensures Accumulator(s[..n]) == ToInt32(31 * Accumulator(s[..n - 1]) + s[n - 1] as int)
  {
    assert s[..n][..n - 1] == s[..n - 1];
    StepIsTimes31(Accumulator(s[..n - 1]), s[n - 1]);
  }

  /** Reference definition: the polynomial c[0]*31^(n-1) + ... + c[n-1] over
      unbounded integers, with no wrap-around. */
  function Polynomial(s: Text): int {
    if s == [] then 0 else 31 * Polynomial(s[..|s| - 1]) + s[|s| - 1] as int
  }

  /** The wrapped accumulator equals the unbounded polynomial reduced to a signed
      32-bit value: wrapping at every step loses nothing compared with wrapping once. */
  lemma {:induction false} AccumulatorIsWrappedPolynomial(s: Text)
    ensures Accumulator(s) == ToInt32(Polynomial(s))
  {
    if s != [] {
      var init, c := s[..|s| - 1], s[|s| - 1];
      var h, p := Accumulator(init), Polynomial(init);
      AccumulatorIsWrappedPolynomial(init);
      StepIsTimes31(h, c);
      var k := (p - h) / Two32;
      assert p - h == Two32 * k;
      assert (31 * h + c as int) - (31 * p + c as int) == Two32 * (-31 * k);
      ModShift(0, -31 * k);
      ToInt32Congruent(31 * h + c as int, 31 * p + c as int);
    }
  }

  /** The hash is `Math.abs` of the accumulator: never negative and at most 2^31,
      which it reaches exactly when the accumulator is -2^31. */
  function Hash(s: Text): (r: nat)
    ensures r <= Two31
    ensures r == Two31 <==> Accumulator(s) == -Two31
    ensures r == Accumulator(s) || r == -Accumulator(s)
  {
    Abs(Accumulator(s))
  }

  /** The hash loop, run on signed 32-bit accumulator values. */
  method SimpleHash(str: Text) returns (hash: nat)
    ensures hash == Hash(str)
    ensures hash == Abs(ToInt32(Polynomial(str)))
  {
    var h := 0;
    for i := 0 to |str|
      invariant h == Accumulator(str[..i])
    {
      var code := str[i] as int;
      h := ToInt32(ToInt32(h) * 32) - h + code;
      h := ToInt32(h);
      assert str[..i + 1][..i] == str[..i];
    }
    assert str[..|str|] == str;
    AccumulatorIsWrappedPolynomial(str);
    hash := Abs(h);
  }
}
