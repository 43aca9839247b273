// Bech32 bit regrouping: digits of one bit width read as digits of another.
module BitRegroup {

  /******* Multiplication and division facts *******/

  lemma MulMono(d: nat, x: nat, y: nat)
    requires x < y
    ensures d * x + d <= d * y
  {
    MulSplit(d, x + 1, y - (x + 1));
    MulSplit(d, x, 1);
  }

  lemma MulSplit(d: nat, a: nat, b: nat)
    ensures d * (a + b) == d * a + d * b && d * b >= 0
  {
  }

  lemma DivModIdentity(a: nat, d: nat)
    requires d > 0
    ensures a == (a / d) * d + a % d && 0 <= a % d < d && a / d >= 0
  {
  }

  lemma DivModUnique(a: nat, d: nat, q: nat, r: nat)
    requires d > 0 && a == q * d + r && r < d
    ensures a / d == q && a % d == r
  {
    DivModIdentity(a, d);
    if a / d > q {
      MulMono(d, q, a / d);
    } else if a / d < q {
      MulMono(d, a / d, q);
    }
  }

  // A number below a, followed by a digit below p, is below a * p.
  lemma Scale(x: nat, a: nat, p: nat, digit: nat)
    requires x < a && digit < p
    ensures x * p + digit < a * p
  {
    MulMono(p, x, a);
  }

  lemma Regroup(b: nat, c: nat, q: nat, r: nat, s: nat)
    requires r < c && s < b
    ensures (q * c + r) * b + s == q * (b * c) + (r * b + s) && r * b + s < b * c
  {
    Scale(r, c, b, s);
    assert (q * c + r) * b == (q * c) * b + r * b;
    assert (q * c) * b == q * (c * b);
  }

  lemma DivDiv(a: nat, b: nat, c: nat)
    requires b > 0 && c > 0
    ensures b * c > 0 && a / (b * c) == (a / b) / c
  {
    DivModIdentity(a, b);
    DivModIdentity(a / b, c);
    var q, r, s := (a / b) / c, (a / b) % c, a % b;
    Regroup(b, c, q, r, s);
    MulMono(b, 0, c);
    DivModUnique(a, b * c, q, r * b + s);
  }

  /******* Powers of two and bit operations *******/

  function Pow2(n: nat): (p: nat)
    ensures p >= 1
  {
    if n == 0 then 1 else 2 * Pow2(n - 1)
  }

  lemma {:induction false} Pow2Add(a: nat, b: nat)
    ensures Pow2(a + b) == Pow2(a) * Pow2(b)
  {
    if b != 0 {
      Pow2Add(a, b - 1);
      assert Pow2(a + b) == 2 * (Pow2(a) * Pow2(b - 1));
      assert 2 * (Pow2(a) * Pow2(b - 1)) == Pow2(a) * (2 * Pow2(b - 1));
    }
  }

  function ShiftLeft(a: nat, n: nat): nat
    decreases n
  {
    if n == 0 then a else ShiftLeft(2 * a, n - 1)
  }

  function ShiftRight(a: nat, n: nat): nat
  {
    if n == 0 then a else ShiftRight(a / 2, n - 1)
  }

  lemma {:induction false} ShiftLeftMultiplies(a: nat, n: nat)
    ensures ShiftLeft(a, n) == a * Pow2(n)
    decreases n
  {
    if n != 0 {
      ShiftLeftMultiplies(2 * a, n - 1);
      assert (2 * a) * Pow2(n - 1) == a * (2 * Pow2(n - 1));
    }
  }

  lemma {:induction false} ShiftRightDivides(a: nat, n: nat)
    ensures ShiftRight(a, n) == a / Pow2(n)
  {
    if n != 0 {
      ShiftRightDivides(a / 2, n - 1);
      DivDiv(a, 2, Pow2(n - 1));
    }
  }

  function BitOr(a: nat, b: nat): nat
    decreases a + b
  {
    if a == 0 && b == 0 then 0 else 2 * BitOr(a / 2, b / 2) + (if a % 2 == 1 || b % 2 == 1 then 1 else 0)
  }

  function BitAnd(a: nat, b: nat): nat
    decreases a
  {
    if a == 0 then 0 else 2 * BitAnd(a / 2, b / 2) + (if a % 2 == 1 && b % 2 == 1 then 1 else 0)
  }

  lemma {:induction false} OrZero(a: nat)
    ensures BitOr(a, 0) == a
  {
    if a != 0 {
      OrZero(a / 2);
    }
  }

  // Or-ing into cleared low bits adds.
  lemma {:induction false} OrIntoCleared(a: nat, n: nat, v: nat)
    requires v < Pow2(n)
    ensures BitOr(a * Pow2(n), v) == a * Pow2(n) + v
  {
    if n == 0 {
      OrZero(a);
    } else {
      var half := a * Pow2(n - 1);
      assert a * Pow2(n) == 2 * half;
      OrIntoCleared(a, n - 1, v / 2);
      assert (2 * half) / 2 == half && (2 * half) % 2 == 0;
    }
  }

  lemma HalveMask(n: nat)
    requires n > 0
    ensures (Pow2(n) - 1) / 2 == Pow2(n - 1) - 1 && (Pow2(n) - 1) % 2 == 1
  {
    assert Pow2(n) == 2 * Pow2(n - 1);
  }

  lemma {:induction false} AndZero(a: nat)
    ensures BitAnd(a, 0) == 0
  {
    if a != 0 {
      AndZero(a / 2);
    }
  }

  lemma AndStep(a: nat, n: nat)
    requires n != 0
    ensures BitAnd(a, Pow2(n) - 1) == 2 * BitAnd(a / 2, Pow2(n - 1) - 1) + a % 2
  {
    HalveMask(n);
  }

  lemma Double(q: nat, p: nat, r: nat, bit: nat)
    requires r < p && bit < 2
    ensures 2 * (q * p + r) + bit == q * (2 * p) + (2 * r + bit) && 2 * r + bit < 2 * p
  {
    assert 2 * (q * p) == q * (2 * p);
  }

  lemma MaskStep(a: nat, n: nat, q: nat, r: nat)
    requires n != 0 && a / 2 == q * Pow2(n - 1) + r && r < Pow2(n - 1)
    ensures a == q * Pow2(n) + (2 * r + a % 2) && 2 * r + a % 2 < Pow2(n)
  {
    Double(q, Pow2(n - 1), r, a % 2);
    assert a == 2 * (a / 2) + a % 2;
  }

  // And-ing with a mask of n ones cuts off what shifting by n keeps.
  lemma {:induction false} AndMask(a: nat, n: nat)
    ensures BitAnd(a, Pow2(n) - 1) < Pow2(n)
    ensures a == ShiftRight(a, n) * Pow2(n) + BitAnd(a, Pow2(n) - 1)
    decreases n
  {
    if n == 0 {
      AndZero(a);
    } else {
      AndStep(a, n);
      AndMask(a / 2, n - 1);
      MaskStep(a, n, ShiftRight(a / 2, n - 1), BitAnd(a / 2, Pow2(n - 1) - 1));
    }
  }

  /******* Positional value *******/

  function Value(digits: seq<nat>, bits: nat): nat
  {
    if digits == [] then 0 else Value(digits[..|digits| - 1], bits) * Pow2(bits) + digits[|digits| - 1]
  }

  predicate InRange(digits: seq<nat>, bits: nat)
  {
    forall i :: 0 <= i < |digits| ==> digits[i] < Pow2(bits)
  }

  // The digits regrouped: as many whole digits as the bits allow, worth the
  // value with the leftover low bits dropped.
  ghost predicate Regrouped(data: seq<nat>, from: nat, to: nat, ret: seq<nat>)
    requires to > 0
  {
    && InRange(ret, to)
    && |ret| == (|data| * from) / to
    && Value(ret, to) == Value(data, from) / Pow2((|data| * from) % to)
  }

  /******* The loop *******/

  // Shifting further is shifting again.
  lemma {:induction false} ShiftAgain(a: nat, m: nat, n: nat)
    ensures ShiftRight(a, m + n) == ShiftRight(ShiftRight(a, m), n)
    decreases m
  {
    if m != 0 {
      ShiftAgain(a / 2, m - 1, n);
    }
  }

  // Shifting a digit in leaves the high bits where they were.
  lemma ShiftIn(acc: nat, value: nat, from: nat, bits: nat)
    requires value < Pow2(from)
    ensures (acc * Pow2(from) + value) / Pow2(bits + from) == acc / Pow2(bits)
  {
    Pow2Add(from, bits);
    DivDiv(acc * Pow2(from) + value, Pow2(from), Pow2(bits));
    DivModUnique(acc * Pow2(from) + value, Pow2(from), acc, value);
  }

  // A digit in range takes its place in the value.
  lemma OrInDigit(before: seq<nat>, value: nat, from: nat)
    requires value < Pow2(from)
    ensures BitOr(ShiftLeft(Value(before, from), from), value) == Value(before, from) * Pow2(from) + value
    ensures Value(before + [value], from) == Value(before, from) * Pow2(from) + value
  {
    ShiftLeftMultiplies(Value(before, from), from);
    OrIntoCleared(Value(before, from), from, value);
    LastDigit(before, value, from);
  }

  lemma ShiftKeepsHigh(acc: nat, value: nat, from: nat, bits: nat)
    requires value < Pow2(from)
    ensures ShiftRight(acc * Pow2(from) + value, bits + from) == ShiftRight(acc, bits)
  {
    ShiftIn(acc, value, from, bits);
    ShiftRightDivides(acc, bits);
    ShiftRightDivides(acc * Pow2(from) + value, bits + from);
  }

  lemma AbsorbDigit(before: seq<nat>, value: nat, from: nat, bits: nat)
    requires value < Pow2(from)
    ensures var acc := Value(before, from);
            var acc' := BitOr(ShiftLeft(acc, from), value);
            acc' == Value(before + [value], from) && ShiftRight(acc', bits + from) == ShiftRight(acc, bits)
  {
    OrInDigit(before, value, from);
    ShiftKeepsHigh(Value(before, from), value, from, bits);
  }

  // n steps of d bits.
  function Times(n: nat, d: nat): nat
  {
    if n == 0 then 0 else Times(n - 1, d) + d
  }

  lemma {:induction false} TimesMultiplies(n: nat, d: nat)
    ensures Times(n, d) == n * d
  {
    if n != 0 {
      TimesMultiplies(n - 1, d);
      Distribute(n - 1, d);
    }
  }

  lemma Distribute(n: nat, d: nat)
    ensures (n + 1) * d == n * d + d
  {
  }

  lemma {:induction false} TimesGrows(m: nat, n: nat, d: nat)
    requires m <= n
    ensures Times(m, d) <= Times(n, d)
  {
    if m < n {
      TimesGrows(m, n - 1, d);
    }
  }

  // The accumulator: every digit or-ed in below the ones before it.
  function Accumulate(data: seq<nat>, from: nat): nat
  {
    if data == [] then 0
    else BitOr(ShiftLeft(Accumulate(data[..|data| - 1], from), from), data[|data| - 1])
  }

  // Output digit j is cut from the accumulator as soon as enough input digits are
  // in, whatever those are: c of them, of whose bits it leaves the surplus.
  ghost predicate CutAfter(data: seq<nat>, from: nat, to: nat, j: nat, digit: nat, c: nat)
  {
    && 0 < c <= |data| && Times(c - 1, from) < Times(j + 1, to) <= Times(c, from)
    && digit == BitAnd(ShiftRight(Accumulate(data[..c], from), Times(c, from) - Times(j + 1, to)), Pow2(to) - 1)
  }

  ghost predicate IsCut(data: seq<nat>, from: nat, to: nat, j: nat, digit: nat)
  {
    exists c: nat :: CutAfter(data, from, to, j, digit, c)
  }

  ghost predicate CutFrom(data: seq<nat>, from: nat, to: nat, ret: seq<nat>)
  {
    forall j :: 0 <= j < |ret| ==> IsCut(data, from, to, j, ret[j])
  }

  lemma LeftoverBits(data: seq<nat>, from: nat, to: nat, ret: seq<nat>, bits: nat)
    requires to > 0 && bits < to && bits + Times(|ret|, to) == Times(|data|, from)
    ensures |ret| == (|data| * from) / to && bits == (|data| * from) % to
  {
    TimesMultiplies(|ret|, to);
    TimesMultiplies(|data|, from);
    DivModUnique(|data| * from, to, |ret|, bits);
  }

  // A digit cut after c input digits stays so when more come in.
  lemma CutStill(data: seq<nat>, i: nat, from: nat, to: nat, j: nat, digit: nat)
    requires i <= |data| && IsCut(data[..i], from, to, j, digit)
    ensures IsCut(data, from, to, j, digit)
  {
    var c: nat :| CutAfter(data[..i], from, to, j, digit, c);
    assert data[..i][..c] == data[..c];
    assert CutAfter(data, from, to, j, digit, c);
  }

  lemma AllCutStill(data: seq<nat>, i: nat, from: nat, to: nat, ret: seq<nat>)
    requires i <= |data| && CutFrom(data[..i], from, to, ret)
    ensures CutFrom(data, from, to, ret)
  {
    forall j | 0 <= j < |ret|
      ensures IsCut(data, from, to, j, ret[j])
    {
      CutStill(data, i, from, to, j, ret[j]);
    }
  }

  lemma AppendCut(data: seq<nat>, from: nat, to: nat, ret: seq<nat>, digit: nat, bits: nat)
    requires data != [] && CutFrom(data, from, to, ret) && Times(|data| - 1, from) < Times(|ret| + 1, to)
    requires bits + Times(|ret| + 1, to) == Times(|data|, from)
    requires digit == BitAnd(ShiftRight(Accumulate(data, from), bits), Pow2(to) - 1)
    ensures CutFrom(data, from, to, ret + [digit])
  {
    assert data[..|data|] == data;
    assert CutAfter(data, from, to, |ret|, digit, |data|);
  }

  // Between digits: what is out has been cut from the digits read so far, and
  // `bits` of theirs are still in the accumulator.
  ghost predicate Pending(data: seq<nat>, from: nat, to: nat, bits: nat, ret: seq<nat>)
  {
    InRange(ret, to) && CutFrom(data, from, to, ret) && bits + Times(|ret|, to) == Times(|data|, from)
  }

  // The next digit to go out needs the last one read.
  ghost predicate Due(data: seq<nat>, from: nat, to: nat, ret: seq<nat>)
  {
    data != [] && Times(|data| - 1, from) < Times(|ret| + 1, to)
  }

  // What is out is worth the accumulator without its pending bits.
  ghost predicate Worth(acc: nat, bits: nat, to: nat, ret: seq<nat>)
  {
    Value(ret, to) == ShiftRight(acc, bits)
  }

  // One inner step moves the next digit over.
  lemma EmitDigit(acc: nat, bits: nat, to: nat, ret: seq<nat>, digit: nat)
    requires bits >= to && Worth(acc, bits, to, ret)
    requires digit == BitAnd(ShiftRight(acc, bits - to), Pow2(to) - 1)
    ensures Worth(acc, bits - to, to, ret + [digit])
  {
    var x := ShiftRight(acc, bits - to);
    ShiftAgain(acc, bits - to, to);
    AndMask(x, to);
    LastDigit(ret, digit, to);
  }

  lemma DrainStep(data: seq<nat>, from: nat, to: nat, bits: nat, ret: seq<nat>, digit: nat)
    requires to > 0 && bits >= to && Pending(data, from, to, bits, ret) && Due(data, from, to, ret)
    requires digit == BitAnd(ShiftRight(Accumulate(data, from), bits - to), Pow2(to) - 1)
    ensures Pending(data, from, to, bits - to, ret + [digit]) && Due(data, from, to, ret + [digit])
  {
    AppendCut(data, from, to, ret, digit, bits - to);
    AndMask(ShiftRight(Accumulate(data, from), bits - to), to);
  }

  // The inner loop: whole digits move from the accumulator to the output.
  method Drain(ghost data: seq<nat>, ghost from: nat, acc: nat, bits0: nat, to: nat, ret0: seq<nat>)
    returns (bits: nat, ret: seq<nat>)
    requires to > 0 && acc == Accumulate(data, from)
    requires Pending(data, from, to, bits0, ret0) && Due(data, from, to, ret0)
    ensures bits < to && Pending(data, from, to, bits, ret)
    ensures Worth(acc, bits0, to, ret0) ==> Worth(acc, bits, to, ret)
  {
    bits, ret := bits0, ret0;
    var maxv := Pow2(to) - 1;
    while bits >= to
      invariant Pending(data, from, to, bits, ret) && Due(data, from, to, ret)
      invariant Worth(acc, bits0, to, ret0) ==> Worth(acc, bits, to, ret)
    {
      var digit := BitAnd(ShiftRight(acc, bits - to), maxv);
      DrainStep(data, from, to, bits, ret, digit);
      if Worth(acc, bits, to, ret) {
        EmitDigit(acc, bits, to, ret, digit);
      }
      bits, ret := bits - to, ret + [digit];
    }
  }

  // In-range digits accumulate to their value and leave what is out untouched.
  ghost predicate Faithful(data: seq<nat>, from: nat, to: nat, bits: nat, ret: seq<nat>)
  {
    Accumulate(data, from) == Value(data, from) && Worth(Value(data, from), bits, to, ret)
  }

  // Reading one more digit, in range or not.
  lemma ReadDigit(data: seq<nat>, i: nat, from: nat, to: nat, bits: nat, ret: seq<nat>)
    requires i < |data| && bits < to && Pending(data[..i], from, to, bits, ret)
    ensures Pending(data[..i + 1], from, to, bits + from, ret) && Due(data[..i + 1], from, to, ret)
    ensures Accumulate(data[..i + 1], from) == BitOr(ShiftLeft(Accumulate(data[..i], from), from), data[i])
  {
    var now := data[..i + 1];
    assert now[..i] == data[..i];
    AllCutStill(now, i, from, to, ret);
  }

  lemma ReadInRange(data: seq<nat>, i: nat, from: nat, to: nat, bits: nat, ret: seq<nat>)
    requires i < |data| && data[i] < Pow2(from) && Faithful(data[..i], from, to, bits, ret)
    ensures Faithful(data[..i + 1], from, to, bits + from, ret)
  {
    var before, now := data[..i], data[..i + 1];
    assert now[..i] == before && now == before + [data[i]];
    AbsorbDigit(before, data[i], from, bits);
  }

  lemma FinishRegrouping(data: seq<nat>, from: nat, to: nat, bits: nat, ret: seq<nat>)
    requires to > 0 && bits < to && Pending(data, from, to, bits, ret)
    ensures |ret| == (|data| * from) / to
    ensures Faithful(data, from, to, bits, ret) ==> Regrouped(data, from, to, ret)
  {
    LeftoverBits(data, from, to, ret, bits);
    ShiftRightDivides(Value(data, from), bits);
  }

  // Whatever the digits, each output digit is cut from the accumulator where its
  // bits are; when the digits are in range they are regrouped.
  method ConvertBits(data: seq<nat>, from: nat, to: nat) returns (ret: seq<nat>)
    requires to > 0
    ensures InRange(ret, to) && |ret| == (|data| * from) / to && CutFrom(data, from, to, ret)
    ensures InRange(data, from) ==> Regrouped(data, from, to, ret)
  {
    var acc: nat, bits: nat := 0, 0;
    ret := [];
    for i := 0 to |data|
      invariant acc == Accumulate(data[..i], from) && bits < to && Pending(data[..i], from, to, bits, ret)
      invariant InRange(data, from) ==> Faithful(data[..i], from, to, bits, ret)
    {
      ReadDigit(data, i, from, to, bits, ret);
      if InRange(data, from) {
        ReadInRange(data, i, from, to, bits, ret);
      }
      acc := BitOr(ShiftLeft(acc, from), data[i]);
      bits := bits + from;
      bits, ret := Drain(data[..i + 1], from, acc, bits, to, ret);
    }
    assert data[..|data|] == data;
    FinishRegrouping(data, from, to, bits, ret);
  }

  // Out-of-range digits do overlap: the loop reads 1, 32 as 32, not as 64.
  lemma OverlappingDigitsLoseBits(data: seq<nat>)
    requires data == [1, 32]
    ensures Accumulate(data, 5) == 32 && Value(data, 5) == 64
  {
    var first := data[..1];
    assert first[..0] == [];
    Powers();
    ShiftLeftMultiplies(0, 5);
    ShiftLeftMultiplies(1, 5);
    assert BitOr(0, 1) == 1;
    assert Accumulate(first, 5) == 1 && Value(first, 5) == 1;
    assert BitOr(32, 32) == 32 by {
      assert BitOr(1, 1) == 1 && BitOr(2, 2) == 2 && BitOr(4, 4) == 4 && BitOr(8, 8) == 8 && BitOr(16, 16) == 16;
    }
  }

  lemma Powers()
    ensures Pow2(2) == 4 && Pow2(5) == 32 && Pow2(8) == 256
  {
    assert Pow2(3) == 8 && Pow2(4) == 16 && Pow2(6) == 64 && Pow2(7) == 128;
  }

  /******* Round trip *******/

  // How many values n digits can hold.
  function Capacity(n: nat, bits: nat): nat
  {
    if n == 0 then 1 else Capacity(n - 1, bits) * Pow2(bits)
  }

  lemma {:induction false} CapacityIsPow2(n: nat, bits: nat)
    ensures Capacity(n, bits) == Pow2(n * bits)
  {
    if n != 0 {
      CapacityIsPow2(n - 1, bits);
      Distribute(n - 1, bits);
      Pow2Add((n - 1) * bits, bits);
    }
  }

  lemma {:induction false} ValueBound(digits: seq<nat>, bits: nat)
    requires InRange(digits, bits)
    ensures Value(digits, bits) < Capacity(|digits|, bits)
  {
    if digits != [] {
      var n := |digits| - 1;
      ValueBound(digits[..n], bits);
      Scale(Value(digits[..n], bits), Capacity(n, bits), Pow2(bits), digits[n]);
    }
  }

  // In-range digit strings of one length are told apart by their value.
  lemma {:induction false} ValueIsInjective(a: seq<nat>, b: seq<nat>, bits: nat)
    requires InRange(a, bits) && InRange(b, bits) && |a| == |b| && Value(a, bits) == Value(b, bits)
    ensures a == b
  {
    if a != [] {
      var n, p := |a| - 1, Pow2(bits);
      DivModUnique(Value(a, bits), p, Value(a[..n], bits), a[n]);
      DivModUnique(Value(b, bits), p, Value(b[..n], bits), b[n]);
      ValueIsInjective(a[..n], b[..n], bits);
      assert a == a[..n] + [a[n]] && b == b[..n] + [b[n]];
    }
  }

  // A number without its last digit, and the digit.
  function High(v: nat, bits: nat): nat
  {
    ShiftRight(v, bits)
  }

  function Low(v: nat, bits: nat): (digit: nat)
    ensures digit < Pow2(bits) && v == High(v, bits) * Pow2(bits) + digit
  {
    AndMask(v, bits);
    BitAnd(v, Pow2(bits) - 1)
  }

  lemma HighBelow(v: nat, a: nat, bits: nat)
    requires v < a * Pow2(bits)
    ensures High(v, bits) < a
  {
    var h, p := High(v, bits), Pow2(bits);
    assert v == h * p + Low(v, bits);
    if h > a {
      MulMono(p, a, h);
    }
  }

  // The n lowest digits of a number.
  function Digits(v: nat, n: nat, bits: nat): seq<nat>
    decreases n
  {
    if n == 0 then [] else Digits(High(v, bits), n - 1, bits) + [Low(v, bits)]
  }

  lemma {:induction false} DigitsInRange(v: nat, n: nat, bits: nat)
    ensures |Digits(v, n, bits)| == n && InRange(Digits(v, n, bits), bits)
    decreases n
  {
    if n != 0 {
      DigitsInRange(High(v, bits), n - 1, bits);
    }
  }

  lemma {:induction false} ValueOfDigits(v: nat, n: nat, bits: nat)
    requires v < Capacity(n, bits)
    ensures Value(Digits(v, n, bits), bits) == v
    decreases n
  {
    if n != 0 {
      HighBelow(v, Capacity(n - 1, bits), bits);
      ValueOfDigits(High(v, bits), n - 1, bits);
      LastDigit(Digits(High(v, bits), n - 1, bits), Low(v, bits), bits);
    }
  }

  lemma LastDigit(digits: seq<nat>, digit: nat, bits: nat)
    ensures Value(digits + [digit], bits) == Value(digits, bits) * Pow2(bits) + digit
  {
    assert (digits + [digit])[..|digits|] == digits;
  }

  // Digits needed to hold `total` bits, and the zero bits that pad the last one.
  function DigitCount(total: nat, bits: nat): nat
    requires bits > 0
  {
    (total + bits - 1) / bits
  }

  lemma PaddingBits(total: nat, bits: nat)
    requires bits > 0
    ensures total <= DigitCount(total, bits) * bits < total + bits
  {
    var n := DigitCount(total, bits);
    DivModIdentity(total + bits - 1, bits);
  }

  function Padding(total: nat, bits: nat): (pad: nat)
    requires bits > 0
    ensures pad < bits && DigitCount(total, bits) * bits == total + pad
  {
    PaddingBits(total, bits);
    DigitCount(total, bits) * bits - total
  }

  // The value moved up by the padding.
  function Padded(data: seq<nat>, wide: nat, narrow: nat): nat
    requires narrow > 0
  {
    Value(data, wide) * Pow2(Padding(|data| * wide, narrow))
  }

  // The zero-padded encoding: the padded value in digits of the other width.
  function EncodePadded(data: seq<nat>, wide: nat, narrow: nat): (digits: seq<nat>)
    requires narrow > 0
    ensures InRange(digits, narrow) && |digits| == DigitCount(|data| * wide, narrow)
  {
    DigitsInRange(Padded(data, wide, narrow), DigitCount(|data| * wide, narrow), narrow);
    Digits(Padded(data, wide, narrow), DigitCount(|data| * wide, narrow), narrow)
  }

  // A value of `total` bits, moved up by the padding, fits the digits.
  lemma ShiftedFits(v: nat, total: nat, pad: nat, count: nat, narrow: nat)
    requires v < Pow2(total) && count * narrow == total + pad
    ensures v * Pow2(pad) < Capacity(count, narrow)
  {
    CapacityIsPow2(count, narrow);
    Pow2Add(total, pad);
    Scale(v, Pow2(total), Pow2(pad), 0);
  }

  lemma PaddedFits(data: seq<nat>, wide: nat, narrow: nat)
    requires narrow > 0 && InRange(data, wide)
    ensures Padded(data, wide, narrow) < Capacity(DigitCount(|data| * wide, narrow), narrow)
  {
    var total := |data| * wide;
    ValueBound(data, wide);
    CapacityIsPow2(|data|, wide);
    ShiftedFits(Value(data, wide), total, Padding(total, narrow), DigitCount(total, narrow), narrow);
  }

  lemma EncodedValue(data: seq<nat>, wide: nat, narrow: nat)
    requires narrow > 0 && InRange(data, wide)
    ensures Value(EncodePadded(data, wide, narrow), narrow) == Padded(data, wide, narrow)
  {
    PaddedFits(data, wide, narrow);
    ValueOfDigits(Padded(data, wide, narrow), DigitCount(|data| * wide, narrow), narrow);
  }

  // Regrouping back to the wide digits undoes the zero-padded encoding, for every
  // digit string and every pair of widths with the encoding no wider than the
  // data; 8-bit bytes in 5-bit digits is the bech32 case.
  lemma RegroupInvertsEncoding(data: seq<nat>, wide: nat, narrow: nat, ret: seq<nat>)
    requires 0 < narrow <= wide && InRange(data, wide)
    requires Regrouped(EncodePadded(data, wide, narrow), narrow, wide, ret)
    ensures ret == data
  {
    var total, pad := |data| * wide, Padding(|data| * wide, narrow);
    EncodedValue(data, wide, narrow);
    DivModUnique(DigitCount(total, narrow) * narrow, wide, |data|, pad);
    DivModUnique(Padded(data, wide, narrow), Pow2(pad), Value(data, wide), 0);
    ValueIsInjective(ret, data, wide);
  }

  method DecodeEncoded(bytes: seq<nat>) returns (decoded: seq<nat>)
    requires InRange(bytes, 8)
    ensures decoded == bytes
  {
    decoded := ConvertBits(EncodePadded(bytes, 8, 5), 5, 8);
    RegroupInvertsEncoding(bytes, 8, 5, decoded);
  }
}
