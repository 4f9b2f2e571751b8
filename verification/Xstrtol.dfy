/** Numbers with unit suffixes: gnulib/lib/xstrtol.c, for any signed or unsigned integer type. */
module Xstrtol {
  import opened Wrappers

  /** The limits of `__strtol_t`. */
  datatype IntType = IntType(signed: bool, max: int) {
    function Min(): int { if signed then -max - 1 else 0 }

    predicate Holds(v: int) { Min() <= v <= max }

    /** The nearest value of the type. */
    function Clamp(v: int): int {
      if v < Min() then Min() else if max < v then max else v
    }
  }

  // The flags of `strtol_error`.
  datatype Error = Error(overflow: bool, badSuffix: bool, invalid: bool)

  const OK := Error(false, false, false)
  const INVALID := Error(false, false, true)

  /** Division in C truncates toward zero. */
  function Quotient(a: int, b: int): int
    requires 0 < b
  {
    if 0 <= a then a / b else -((-a) / b)
  }

  lemma QuotientBounds(m: int, f: int, x: int)
    requires 0 <= m && 0 < f
    ensures m / f < x <==> m < x * f
  {
    var q := m / f;
    assert q * f <= m < (q + 1) * f;
    if q < x { ProductGrows(q + 1, x, f); } else { ProductGrows(x, q, f); }
  }

  lemma ProductGrows(a: int, b: int, f: int)
    requires a <= b && 0 <= f
    ensures a * f <= b * f
  {
    assert 0 <= (b - a) * f;
  }

  /** Saturating multiplication. */
  method Scale(ty: IntType, x: int, factor: int) returns (y: int, overflow: bool)
    requires 0 <= ty.max && ty.Holds(x) && 0 < factor
    ensures y == ty.Clamp(x * factor)
    ensures overflow <==> !ty.Holds(x * factor)
  {
    QuotientBounds(ty.max, factor, x);
    QuotientBounds(ty.max + 1, factor, -x);
    assert (-x) * factor == -(x * factor);
    if 0 <= x { ProductGrows(0, x, factor); }
    if ty.signed && x < Quotient(ty.Min(), factor) {
      return ty.Min(), true;
    }
    if Quotient(ty.max, factor) < x {
      return ty.max, true;
    }
    y, overflow := x * factor, false;
  }

  function Power(b: int, k: nat): int {
    if k == 0 then 1 else b * Power(b, k - 1)
  }

  lemma {:induction false} PowerPositive(b: int, k: nat)
    requires 1 <= b
    ensures 1 <= Power(b, k)
  {
    if k != 0 {
      PowerPositive(b, k - 1);
      ProductGrows(1, b, Power(b, k - 1));
    }
  }

  /** Clamping first makes no difference to a clamped product, nor to whether it is in range. */
  lemma ClampBeforeScaling(ty: IntType, v: int, factor: int)
    requires 0 <= ty.max && 1 <= factor && (ty.signed || 0 <= v)
    ensures ty.Clamp(ty.Clamp(v) * factor) == ty.Clamp(v * factor)
    ensures !ty.Holds(v) ==> !ty.Holds(v * factor)
    ensures ty.Holds(v) ==> ty.Clamp(v) == v
  {
    if ty.max < v {
      ScaledFurther(ty.max, v, factor);
    } else if v < ty.Min() {
      ScaledFurther(-ty.Min(), -v, factor);
      assert (-v) * factor == -(v * factor) && (-ty.Min()) * factor == -(ty.Min() * factor);
    }
  }

  lemma ScaledFurther(m: int, v: int, factor: int)
    requires 0 <= m < v && 1 <= factor
    ensures m <= m * factor && v <= v * factor
  {
    ProductGrows(1, factor, m);
    ProductGrows(1, factor, v);
  }

  /**
   * Repeated saturating multiplication is one clamp of the exact product, and overflow is reported
   * exactly when the exact product is out of range.
   */
  method ScaleByPower(ty: IntType, x: int, factor: int, power: nat) returns (y: int, overflow: bool)
    requires 0 <= ty.max && ty.Holds(x) && 1 <= factor
    ensures y == ty.Clamp(x * Power(factor, power))
    ensures overflow <==> !ty.Holds(x * Power(factor, power))
  {
    y, overflow := x, false;
    for k := 0 to power
      invariant y == ty.Clamp(x * Power(factor, k)) && ty.Holds(y)
      invariant overflow <==> !ty.Holds(x * Power(factor, k))
    {
      ghost var v := x * Power(factor, k);
      SignKept(x, factor, k);
      ClampBeforeScaling(ty, v, factor);
      PowerStep(x, factor, k);
      var once;
      y, once := Scale(ty, y, factor);
      overflow := overflow || once;
    }
  }

  lemma SignKept(x: int, factor: int, k: nat)
    requires 1 <= factor
    ensures 0 <= x ==> 0 <= x * Power(factor, k)
  {
    PowerPositive(factor, k);
    if 0 <= x { ProductGrows(0, x, Power(factor, k)); }
  }

  lemma PowerStep(x: int, b: int, k: nat)
    ensures x * Power(b, k) * b == x * Power(b, k + 1)
  {
    assert x * Power(b, k) * b == x * (b * Power(b, k));
  }

  // ---- __xstrtol

  /** What `strtol` finds: the exact value of the numeral and where it ends, or no numeral. */
  datatype Numeral = NoNumeral | Numeral(exact: int, end: nat)

  function CharAt(s: string, i: nat): char {
    if i < |s| then s[i] else '\0'
  }

  predicate IsSpace(c: char) {
    c in [' ', '\t', '\n', '\r', '\U{0B}', '\U{0C}']
  }

  /** The first character that is not white space is a minus sign. */
  predicate Negative(s: string) {
    s != "" && if IsSpace(s[0]) then Negative(s[1..]) else s[0] == '-'
  }

  /** The scan in front of an unsigned conversion. */
  method StartsNegative(s: string) returns (negative: bool)
    ensures negative <==> Negative(s)
  {
    var q := 0;
    while q < |s| && IsSpace(s[q])
      invariant 0 <= q <= |s| && Negative(s) == Negative(s[q..])
    {
      q := q + 1;
    }
    negative := CharAt(s, q) == '-';
  }

  predicate IsUnit(c: char) {
    c in "EGgkKMmPTtYZ"
  }

  /** The base a unit stands for and how many characters it takes, given what follows it. */
  function UnitBase(s: string, p: nat, valid: string): (int, nat) {
    if !IsUnit(CharAt(s, p)) || '0' !in valid then (1024, 1)
    else if CharAt(s, p + 1) == 'i' then (1024, if CharAt(s, p + 2) == 'B' then 3 else 1)
    else if CharAt(s, p + 1) == 'B' || CharAt(s, p + 1) == 'D' then (1000, 2)
    else (1024, 1)
  }

  /** The factor and the power a suffix stands for. */
  function SuffixScale(c: char, unit: int): Option<(int, nat)> {
    if c == 'b' then Some((512, 1))
    else if c == 'B' then Some((1024, 1))
    else if c == 'c' then Some((1, 0))
    else if c == 'w' then Some((2, 1))
    else if c == 'k' || c == 'K' then Some((unit, 1))
    else if c == 'M' || c == 'm' then Some((unit, 2))
    else if c == 'G' || c == 'g' then Some((unit, 3))
    else if c == 'T' || c == 't' then Some((unit, 4))
    else if c == 'P' then Some((unit, 5))
    else if c == 'E' then Some((unit, 6))
    else if c == 'Z' then Some((unit, 7))
    else if c == 'Y' then Some((unit, 8))
    else None
  }

  /** What the suffix at `p` multiplies by; nothing unless it is accepted. */
  function Multiplier(s: string, p: nat, valid: string): Option<int> {
    if CharAt(s, p) !in valid then None
    else
      var scale := SuffixScale(CharAt(s, p), UnitBase(s, p, valid).0);
      if scale.None? then None else Some(Power(scale.value.0, scale.value.1))
  }

  lemma MultiplierPositive(s: string, p: nat, valid: string)
    ensures Multiplier(s, p, valid).Some? ==> 1 <= Multiplier(s, p, valid).value
  {
    var scale := SuffixScale(CharAt(s, p), UnitBase(s, p, valid).0);
    if scale.Some? { PowerPositive(scale.value.0, scale.value.1); }
  }

  /** The base of a unit: 1000 exactly where a second suffix is allowed and says so. */
  lemma BaseIs(s: string, p: nat, valid: string)
    ensures var decimal := IsUnit(CharAt(s, p)) && '0' in valid && (CharAt(s, p + 1) == 'B' || CharAt(s, p + 1) == 'D');
            var binary := IsUnit(CharAt(s, p)) && '0' in valid && CharAt(s, p + 1) == 'i' && CharAt(s, p + 2) == 'B';
            && UnitBase(s, p, valid).0 == (if decimal then 1000 else 1024)
            && UnitBase(s, p, valid).1 == (if decimal then 2 else if binary then 3 else 1)
    ensures forall c :: IsUnit(c) <==>
              c == 'E' || c == 'G' || c == 'g' || c == 'k' || c == 'K' || c == 'M' || c == 'm' || c == 'P' || c == 'T'
              || c == 't' || c == 'Y' || c == 'Z'
  {
  }

  lemma PowersOf(u: int)
    ensures Power(u, 0) == 1 && Power(u, 1) == u
    ensures forall k: nat :: k <= 8 ==> Power(u, k + 1) == u * Power(u, k)
  {
    assert Power(u, 1) == u * Power(u, 0);
  }

  /** The multiplier of an accepted suffix letter on its own. */
  function Letter(c: char, unit: int): Option<int> {
    var scale := SuffixScale(c, unit);
    if scale.None? then None else Some(Power(scale.value.0, scale.value.1))
  }

  /** The ladder of units: each step is the base times the one before. */
  lemma Ladder(unit: int)
    ensures Letter('k', unit) == Letter('K', unit) == Some(unit)
    ensures Letter('M', unit) == Letter('m', unit) == Some(unit * Letter('K', unit).value)
    ensures Letter('G', unit) == Letter('g', unit) == Some(unit * Letter('M', unit).value)
    ensures Letter('T', unit) == Letter('t', unit) == Some(unit * Letter('G', unit).value)
    ensures Letter('P', unit) == Some(unit * Letter('T', unit).value)
    ensures Letter('E', unit) == Some(unit * Letter('P', unit).value)
    ensures Letter('Z', unit) == Some(unit * Letter('E', unit).value)
    ensures Letter('Y', unit) == Some(unit * Letter('Z', unit).value)
    ensures Letter('b', unit) == Some(512) && Letter('B', unit) == Some(1024)
    ensures Letter('c', unit) == Some(1) && Letter('w', unit) == Some(2)
    ensures forall c :: Letter(c, unit).Some? <==> IsUnit(c) || c == 'b' || c == 'B' || c == 'c' || c == 'w'
  {
    PowersOf(unit);
    PowersOf(512);
    PowersOf(1024);
    PowersOf(2);
  }

  /** A suffix multiplies by its letter's unit, if the letter is accepted. */
  lemma MultiplierIsLetter(s: string, p: nat, valid: string)
    ensures Multiplier(s, p, valid) ==
            if CharAt(s, p) in valid then Letter(CharAt(s, p), UnitBase(s, p, valid).0) else None
  {
  }

  /** The number the string stands for before its suffix: 1 if there is only a suffix. */
  function Exact(found: Numeral): int {
    if found.NoNumeral? then 1 else found.exact
  }

  function End(found: Numeral): nat {
    if found.NoNumeral? then 0 else found.end
  }

  /** The string is rejected outright. */
  predicate Rejected(ty: IntType, s: string, found: Numeral, suffixes: Option<string>) {
    || (!ty.signed && Negative(s))
    || (found.NoNumeral? && (suffixes.None? || CharAt(s, 0) == '\0' || CharAt(s, 0) !in suffixes.value))
  }

  /** Applies an accepted suffix, as the second `switch` does. */
  method ApplySuffix(ty: IntType, tmp: int, c: char, unit: int) returns (y: int, overflow: bool, known: bool)
    requires 1024 <= ty.max && ty.Holds(tmp) && 1 <= unit
    ensures known <==> SuffixScale(c, unit).Some?
    ensures !known ==> y == tmp && !overflow
    ensures known ==>
              var m := Power(SuffixScale(c, unit).value.0, SuffixScale(c, unit).value.1);
              y == ty.Clamp(tmp * m) && (overflow <==> !ty.Holds(tmp * m))
  {
    y, overflow, known := tmp, false, true;
    var scale := SuffixScale(c, unit);
    if scale.None? {
      known := false;
    } else if c != 'c' {
      y, overflow := ScaleByPower(ty, tmp, scale.value.0, scale.value.1);
    }
  }

  /**
   * `__xstrtol` from the return of `strtol` on.  For every numeral and accepted suffix the value is
   * one clamp of the exact product, even if `strtol` had saturated already, and overflow is
   * reported exactly when the exact product is out of range.
   */
  method Parse(ty: IntType, s: string, found: Numeral, suffixes: Option<string>)
      returns (err: Error, val: Option<int>, end: nat)
    requires 1024 <= ty.max
    requires !Negative(s) ==> 0 <= Exact(found)  // as `strtol` reads it
    requires suffixes.Some? ==> '\0' !in suffixes.value
    ensures err.invalid <==> Rejected(ty, s, found, suffixes)
    ensures val.None? <==> err.invalid
    ensures !err.invalid && (suffixes.None? || CharAt(s, End(found)) == '\0') ==>
              && val == Some(ty.Clamp(Exact(found))) && end == End(found)
              && err == Error(!ty.Holds(Exact(found)), false, false)
    ensures !err.invalid && suffixes.Some? && CharAt(s, End(found)) != '\0' ==>
              var m := Multiplier(s, End(found), suffixes.value);
              if m.Some? then
                && val == Some(ty.Clamp(Exact(found) * m.value))
                && end == End(found) + UnitBase(s, End(found), suffixes.value).1
                && err == Error(!ty.Holds(Exact(found) * m.value), CharAt(s, end) != '\0', false)
              else
                && val == Some(ty.Clamp(Exact(found))) && end == End(found)
                && err == Error(!ty.Holds(Exact(found)), true, false)
  {
    val, end := None, End(found);
    if !ty.signed {
      var negative := StartsNegative(s);
      if negative { return INVALID, None, end; }
    }
    if found.NoNumeral? && (suffixes.None? || CharAt(s, 0) == '\0' || CharAt(s, 0) !in suffixes.value) {
      return INVALID, None, end;
    }
    var exact := Exact(found);
    var tmp := ty.Clamp(exact);
    err := Error(!ty.Holds(exact), false, false);
    if suffixes.None? || CharAt(s, end) == '\0' {
      return err, Some(tmp), end;
    }
    var c := CharAt(s, end);
    if c !in suffixes.value {
      return err.(badSuffix := true), Some(tmp), end;
    }
    var (unit, length) := UnitBase(s, end, suffixes.value);
    var y, overflow, known := ApplySuffix(ty, tmp, c, unit);
    if !known {
      return err.(badSuffix := true), Some(tmp), end;
    }
    MultiplierPositive(s, end, suffixes.value);
    ClampBeforeScaling(ty, exact, Multiplier(s, end, suffixes.value).value);
    end := end + length;
    err := Error(err.overflow || overflow, CharAt(s, end) != '\0', false);
    val := Some(y);
  }
}
