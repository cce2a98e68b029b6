/** LEB128 integers, as in section 7.6 of DWARF Debugging Information Format Version 5. */
module Leb128 {
  import opened Words

  type Byte = b: int | 0 <= b < 256

  /** What a decoder makes of some bytes: a number and how many bytes it took, a number that is too big, or nothing that
      the language defines (the bytes end too early, or a shift is by 64 or more). */
  datatype Outcome = Decoded(value: int, size: nat) | TooBig | Undefined

  // ----- the encodings

  function Uleb(value: nat): (r: seq<Byte>)
    ensures r != []
  {
    if value / 128 != 0 then [value % 128 + 128] + Uleb(value / 128) else [value % 128]
  }

  /** The byte tells the sign, and nothing else is left. */
  predicate LastOfSigned(byte: int, rest: int) {
    (rest == 0 && byte < 64) || (rest == -1 && byte >= 64)
  }

  function Sleb(value: int): (r: seq<Byte>)
    ensures r != []
    decreases if value >= 0 then value else -value
  {
    var byte, rest := value % 128, value / 128;
    if LastOfSigned(byte, rest) then [byte] else [byte + 128] + Sleb(rest)
  }

  /** One number: the last byte, and only the last, is below 128. */
  ghost predicate OneNumber(p: seq<Byte>) {
    p != [] && p[|p| - 1] < 128 && forall i :: 0 <= i < |p| - 1 ==> p[i] >= 128
  }

  /** The number that the low seven bits spell, lowest first. */
  function Spelled(p: seq<Byte>): nat {
    if p == [] then 0 else p[0] % 128 + 128 * Spelled(p[1..])
  }

  /** The same, with the last byte's seven bits in two's complement. */
  function SignedSpelled(p: seq<Byte>): int {
    if p == [] then 0
    else if |p| == 1 then (if p[0] % 128 >= 64 then p[0] % 128 - 128 else p[0] % 128)
    else p[0] % 128 + 128 * SignedSpelled(p[1..])
  }

  lemma Prepended(b: Byte, rest: seq<Byte>)
    requires b >= 128 && OneNumber(rest)
    ensures OneNumber([b] + rest)
    ensures Spelled([b] + rest) == b % 128 + 128 * Spelled(rest)
    ensures SignedSpelled([b] + rest) == b % 128 + 128 * SignedSpelled(rest)
  {
    assert ([b] + rest)[1..] == rest;
  }

  lemma Alone(b: Byte)
    requires b < 128
    ensures OneNumber([b]) && Spelled([b]) == b && SignedSpelled([b]) == if b >= 64 then b - 128 else b
  {
    assert Spelled([b][1..]) == 0;
  }

  lemma {:induction false} UlebSpells(value: nat)
    ensures OneNumber(Uleb(value)) && Spelled(Uleb(value)) == value
  {
    hide Spelled, OneNumber, SignedSpelled;
    if value / 128 != 0 {
      UlebSpells(value / 128);
      Prepended(value % 128 + 128, Uleb(value / 128));
    } else {
      Alone(value % 128);
    }
  }

  lemma {:induction false} SlebSpells(value: int)
    ensures OneNumber(Sleb(value)) && SignedSpelled(Sleb(value)) == value
    decreases if value >= 0 then value else -value
  {
    hide Spelled, OneNumber, SignedSpelled;
    var byte, rest := value % 128, value / 128;
    if LastOfSigned(byte, rest) {
      Alone(byte);
    } else {
      SlebSpells(rest);
      Prepended(byte + 128, Sleb(rest));
    }
  }

  /** A number of `k` times seven bits takes at most `k` bytes. */
  lemma {:induction false} UlebLength(value: nat, k: nat)
    requires 0 < k && value < Pow2(7 * k)
    ensures |Uleb(value)| <= k
  {
    if value / 128 != 0 {
      Pow2Step(0);
      assert k > 1;
      Pow2Step(k - 1);
      UlebLength(value / 128, k - 1);
    }
  }

  lemma {:induction false} SlebLength(value: int, k: nat)
    requires 0 < k && 0 <= Pow2(7 * k) + 2 * value && 2 * value < Pow2(7 * k)
    ensures |Sleb(value)| <= k
    decreases k
  {
    var byte, rest := value % 128, value / 128;
    if !LastOfSigned(byte, rest) {
      Pow2Step(0);
      assert k > 1;
      Pow2Step(k - 1);
      SlebLength(rest, k - 1);
    }
  }

  /** The encodings of 64-bit numbers take at most ten bytes. */
  lemma AtMostTen()
    ensures forall value: nat :: value < U64 ==> |Uleb(value)| <= 10
    ensures forall value: int :: -I64 <= value < I64 ==> |Sleb(value)| <= 10
  {
    Powers();
    forall value: nat | value < U64 ensures |Uleb(value)| <= 10 { UlebLength(value, 10); }
    forall value: int | -I64 <= value < I64 ensures |Sleb(value)| <= 10 { SlebLength(value, 10); }
  }

  // ----- prefixes

  lemma {:induction false} SpelledSnoc(p: seq<Byte>, b: Byte)
    ensures Spelled(p + [b]) == Spelled(p) + (b % 128) * Pow2(7 * |p|)
  {
    if p == [] {
      assert p + [b] == [b];
      assert Spelled([b][1..]) == 0;
    } else {
      assert (p + [b])[1..] == p[1..] + [b];
      SpelledSnoc(p[1..], b);
      Pow2Step(|p| - 1);
      Regroup(b % 128, Pow2(7 * (|p| - 1)));
    }
  }

  lemma Regroup(x: int, y: int)
    ensures 128 * (x * y) == x * (128 * y)
  {
  }

  lemma {:induction false} SignedIsSpelled(p: seq<Byte>)
    requires p != []
    ensures SignedSpelled(p) == Spelled(p) - if p[|p| - 1] % 128 >= 64 then Pow2(7 * |p|) else 0
  {
    Pow2Step(|p| - 1);
    if |p| == 1 {
      assert Spelled(p[1..]) == 0;
    } else {
      SignedIsSpelled(p[1..]);
    }
  }

  lemma {:induction false} SpelledBound(p: seq<Byte>)
    ensures Spelled(p) < Pow2(7 * |p|)
  {
    if p != [] {
      SpelledBound(p[1..]);
      Pow2Step(|p| - 1);
    }
  }

  /** A longer number is no smaller. */
  lemma {:induction false} SpelledGrows(p: seq<Byte>, q: seq<Byte>)
    ensures Spelled(p) <= Spelled(p + q)
  {
    if p == [] {
      assert p + q == q;
    } else {
      assert (p + q)[1..] == p[1..] + q;
      SpelledGrows(p[1..], q);
    }
  }

  // ----- encoding

  /** `encode_ULEB128`: appends the bytes to a buffer. */
  method EncodeUleb128(number: nat, p: seq<Byte>) returns (r: seq<Byte>)
    requires number < U64
    ensures r == p + Uleb(number)
  {
    var value := number;
    r := p;
    var more := true;
    while more
      invariant more ==> r + Uleb(value) == p + Uleb(number)
      invariant !more ==> r == p + Uleb(number)
      decreases more, value
    {
      ghost var before := value;
      var byte := value % 128;
      value := value / 128;
      if value != 0 {
        byte := byte + 128;
      }
      assert r + Uleb(before) == (if value != 0 then (r + [byte]) + Uleb(value) else r + [byte]);
      r := r + [byte];
      more := value != 0;
    }
  }

  method EncodeSleb128(number: int, p: seq<Byte>) returns (r: seq<Byte>)
    requires -I64 <= number < I64
    ensures r == p + Sleb(number)
  {
    var value := number;
    r := p;
    var more := true;
    while more
      invariant more ==> r + Sleb(value) == p + Sleb(number)
      invariant !more ==> r == p + Sleb(number)
      decreases more, if value >= 0 then value else -value
    {
      ghost var before := value;
      var byte := value % 128;
      value := value / 128;
      more := !LastOfSigned(byte, value);
      assert r + Sleb(before) == (if more then (r + [byte + 128]) + Sleb(value) else r + [byte]);
      if more {
        byte := byte + 128;
      }
      r := r + [byte];
    }
  }

  method GetUleb128Size(number: nat) returns (size: nat)
    requires number < U64
    ensures size == |Uleb(number)| <= 10
  {
    AtMostTen();
    var value := number;
    size := 0;
    var more := true;
    while more
      invariant size + (if more then |Uleb(value)| else 0) == |Uleb(number)|
      decreases more, value
    {
      value := value / 128;
      size := size + 1;
      more := value != 0;
    }
  }

  method GetSleb128Size(number: int) returns (size: nat)
    requires -I64 <= number < I64
    ensures size == |Sleb(number)| <= 10
  {
    AtMostTen();
    var value := number;
    size := 0;
    var more := true;
    while more
      invariant size + (if more then |Sleb(value)| else 0) == |Sleb(number)|
      decreases more, if value >= 0 then value else -value
    {
      var byte := value % 128;
      value := value / 128;
      more := !LastOfSigned(byte, value);
      size := size + 1;
    }
  }

  // ----- decoding

  /** What the unsigned decoder owes: for a number that ends within the bytes, its value and length, if it fits. */
  ghost predicate DecodesUleb(p: seq<Byte>, o: Outcome) {
    && (forall n :: 0 < n <= |p| && OneNumber(p[..n]) ==>
          o == if n <= 10 && Spelled(p[..n]) < U64 then Decoded(Spelled(p[..n]), n) else TooBig)
    && ((forall n :: 0 < n <= |p| ==> !OneNumber(p[..n])) ==> o == TooBig || o == Undefined)
  }

  ghost predicate AllContinue(p: seq<Byte>) {
    forall i :: 0 <= i < |p| ==> p[i] >= 128
  }

  /** The first byte below 128 ends the number; whatever else begins here does not. */
  lemma EndsHere(p: seq<Byte>, k: nat)
    requires k < |p| && AllContinue(p[..k])
    ensures p[k] < 128 ==> OneNumber(p[..k + 1]) && forall n :: 0 < n <= |p| && OneNumber(p[..n]) ==> n == k + 1
    ensures p[k] >= 128 ==> AllContinue(p[..k + 1])
    ensures forall n :: 0 < n <= |p| && OneNumber(p[..n]) ==> n > k
  {
    assert forall i :: 0 <= i < k ==> p[i] == p[..k][i];
    forall n | 0 < n <= |p| && OneNumber(p[..n]) ensures n > k && (p[k] < 128 ==> n == k + 1) {
      assert p[..n][n - 1] == p[n - 1];
      if n > k + 1 {
        assert p[..n][k] == p[k];
      }
    }
  }

  lemma NotEnded(p: seq<Byte>)
    requires AllContinue(p)
    ensures forall n :: 0 < n <= |p| ==> !OneNumber(p[..n])
  {
    forall n | 0 < n <= |p| ensures !OneNumber(p[..n]) {
      assert p[..n][n - 1] == p[n - 1];
    }
  }

  /** One more byte. */
  lemma SpelledNext(p: seq<Byte>, k: nat)
    requires k < |p|
    ensures Spelled(p[..k + 1]) == Spelled(p[..k]) + (p[k] % 128) * Pow2(7 * k)
    ensures Spelled(p[..k]) < Pow2(7 * k)
    ensures forall n :: k < n <= |p| ==> Spelled(p[..k + 1]) <= Spelled(p[..n])
  {
    assert p[..k + 1] == p[..k] + [p[k]];
    SpelledSnoc(p[..k], p[k]);
    SpelledBound(p[..k]);
    forall n | k < n <= |p| ensures Spelled(p[..k + 1]) <= Spelled(p[..n]) {
      assert p[..n] == p[..k + 1] + p[k + 1..n];
      SpelledGrows(p[..k + 1], p[k + 1..n]);
    }
  }

  lemma TooBigHere(p: seq<Byte>, k: nat)
    requires k < |p| && AllContinue(p[..k])
    requires k >= 10 || (p[k] % 128) * Pow2(7 * k) >= U64
    ensures DecodesUleb(p, TooBig)
  {
    hide Spelled, OneNumber, AllContinue, Pow2;
    EndsHere(p, k);
    SpelledNext(p, k);
  }

  lemma DecodedHere(p: seq<Byte>, k: nat)
    requires k < |p| && k < 10 && AllContinue(p[..k]) && p[k] < 128 && Spelled(p[..k + 1]) < U64
    ensures DecodesUleb(p, Decoded(Spelled(p[..k + 1]), k + 1))
  {
    hide Spelled, OneNumber, AllContinue;
    EndsHere(p, k);
  }

  method DecodeUleb128(p: seq<Byte>) returns (o: Outcome)
    ensures DecodesUleb(p, o) && (o.Decoded? ==> 0 < o.size <= |p| && 0 <= o.value < U64)
  {
    hide Spelled, OneNumber, AllContinue, DecodesUleb, ShiftLeft, ShiftRight, Pow2;
    var value, shift, k := 0, 0, 0;
    var more := true;
    Start(p);
    while more
      invariant 0 <= k <= |p| && shift == 7 * k && k <= 10
      invariant value == Spelled(p[..k]) < U64
      invariant more ==> AllContinue(p[..k])
      invariant !more ==> k > 0 && DecodesUleb(p, Decoded(value, k))
      decreases more, |p| - k
    {
      if k == |p| {
        assert p[..k] == p;
        Exhausted(p);
        return Undefined;
      }
      var slice := p[k] % 128;
      ShiftSurvives(slice, shift);
      SpelledNext(p, k);
      if shift >= 64 || ShiftRight(ShiftLeft(slice, shift), shift) != slice {
        TooBigHere(p, k);
        return TooBig;
      }
      SumWithin(p, k);
      value := (value + ShiftLeft(slice, shift)) % U64;
      shift := shift + 7;
      EndsHere(p, k);
      if p[k] < 128 {
        DecodedHere(p, k);
        more := false;
      }
      k := k + 1;
    }
    return Decoded(value, k);
  }

  lemma Start(p: seq<Byte>)
    ensures Spelled(p[..0]) == 0 && AllContinue(p[..0])
  {
  }

  lemma Exhausted(p: seq<Byte>)
    requires AllContinue(p)
    ensures DecodesUleb(p, Undefined)
  {
    hide OneNumber, Spelled;
    NotEnded(p);
  }

  /** Slices that stay in the word spell a number that does. */
  lemma SumWithin(p: seq<Byte>, k: nat)
    requires k < |p| && k < 10 && (p[k] % 128) * Pow2(7 * k) < U64
    ensures Spelled(p[..k + 1]) < U64
  {
    hide Spelled;
    SpelledNext(p, k);
    SpelledBound(p[..k + 1]);
    Powers();
    if k < 9 {
      Pow2Grows(7 * (k + 1), 63);
    } else {
      assert Pow2(7 * k) == I64;
    }
  }

  // ----- decoding signed numbers

  function Signed(bits: nat): int {
    if bits >= I64 then bits - U64 else bits
  }

  predicate FitsSigned(value: int) {
    -I64 <= value < I64
  }

  /** What the signed decoder owes, for a number of at most ten bytes. */
  ghost predicate DecodesSleb(p: seq<Byte>, o: Outcome) {
    && (forall n :: 0 < n <= |p| && n <= 10 && OneNumber(p[..n]) ==>
          o == if FitsSigned(SignedSpelled(p[..n])) then Decoded(SignedSpelled(p[..n]), n) else TooBig)
    && ((forall n :: 0 < n <= |p| && n <= 10 ==> !OneNumber(p[..n])) ==> o == TooBig || o == Undefined)
  }

  /** Up to nine bytes stay below the sign bit. */
  lemma NineBytes(p: seq<Byte>, k: nat)
    requires k <= |p| && k <= 9
    ensures Spelled(p[..k]) < Pow2(7 * k) <= I64
  {
    SpelledBound(p[..k]);
    Powers();
    Pow2Grows(7 * k, 63);
  }

  /** One more slice, below the sign bit. */
  lemma GatherLow(p: seq<Byte>, k: nat)
    requires k < |p| && k < 9
    ensures BitOr(Spelled(p[..k]), ShiftLeft(p[k] % 128, 7 * k)) == Spelled(p[..k + 1]) < I64
  {
    hide Spelled, BitOr, ShiftLeft;
    SpelledNext(p, k);
    NineBytes(p, k + 1);
    ShiftedWithin(p[k] % 128, 7 * k);
    BitOrAbove(Spelled(p[..k]), p[k] % 128, 7 * k);
  }

  /** The tenth slice: only its lowest bit stays in the word. */
  lemma GatherTenth(p: seq<Byte>)
    requires 10 <= |p| && (p[9] % 128 == 0 || p[9] % 128 == 127)
    ensures BitOr(Spelled(p[..9]), ShiftLeft(p[9] % 128, 63)) == Spelled(p[..9]) + if p[9] % 128 == 127 then I64 else 0
  {
    hide Spelled, BitOr, ShiftLeft;
    NineBytes(p, 9);
    Powers();
    ShiftedOut(p[9] % 128, 63);
    hide Pow2;
    if p[9] % 128 == 127 {
      assert ShiftLeft(127, 63) == 1 * Pow2(63);
      BitOrAbove(Spelled(p[..9]), 1, 63);
    } else {
      assert ShiftLeft(0, 63) == 0 * Pow2(63);
      BitOrAbove(Spelled(p[..9]), 0, 63);
    }
  }

  /** What the word holds after `k` slices. */
  ghost function Gathered(p: seq<Byte>, k: nat): int
    requires k <= |p| && k <= 10
  {
    if k <= 9 then Spelled(p[..k]) else Spelled(p[..9]) + if p[9] % 128 == 127 then I64 else 0
  }

  lemma GatherNext(p: seq<Byte>, k: nat)
    requires k < |p| && k < 10 && (k == 9 ==> p[k] % 128 == 0 || p[k] % 128 == 127)
    ensures BitOr(Gathered(p, k), ShiftLeft(p[k] % 128, 7 * k)) == Gathered(p, k + 1)
    ensures 0 <= Gathered(p, k + 1) < U64
  {
    hide Spelled, BitOr, ShiftLeft, Pow2;
    if k < 9 {
      GatherLow(p, k);
    } else {
      GatherTenth(p);
      NineBytes(p, 9);
    }
  }

  /** A ten-byte number fits exactly if its last slice is all sign. */
  lemma TenthFits(p: seq<Byte>)
    requires 10 <= |p|
    ensures FitsSigned(SignedSpelled(p[..10])) <==> p[9] % 128 == 0 || p[9] % 128 == 127
    ensures FitsSigned(SignedSpelled(p[..10])) ==> SignedSpelled(p[..10]) == Signed(Gathered(p, 10))
  {
    hide Spelled, SignedSpelled;
    SpelledNext(p, 9);
    NineBytes(p, 9);
    SignedIsSpelled(p[..10]);
    Powers();
    hide Pow2;
  }

  /** The sign of a shorter number is in its last slice. */
  lemma SignExtended(p: seq<Byte>, k: nat)
    requires 0 < k <= |p| && k <= 9
    ensures var bits := Spelled(p[..k]);
      && FitsSigned(SignedSpelled(p[..k]))
      && (p[k - 1] % 128 >= 64 ==> Signed(BitOr(bits, ShiftLeft(U64 - 1, 7 * k))) == SignedSpelled(p[..k]))
      && (p[k - 1] % 128 < 64 ==> Signed(bits) == SignedSpelled(p[..k]))
  {
    hide Spelled, SignedSpelled, BitOr, ShiftLeft, Pow2;
    NineBytes(p, k);
    SignedIsSpelled(p[..k]);
    SignMask(7 * k);
    LowSign(p, k);
    BitOrAbove(Spelled(p[..k]), Pow2(64 - 7 * k) - 1, 7 * k);
  }

  /** Without a sign the number is below half of what its bytes hold. */
  lemma LowSign(p: seq<Byte>, k: nat)
    requires 0 < k <= |p|
    ensures p[k - 1] % 128 >= 64 ==> 2 * Spelled(p[..k]) >= Pow2(7 * k)
  {
    hide Spelled;
    SpelledNext(p, k - 1);
    Pow2Step(k - 1);
    hide Pow2;
    if p[k - 1] % 128 >= 64 { AtLeast(p[k - 1] % 128, 64, Pow2(7 * (k - 1))); }
  }

  lemma AtLeast(x: int, y: int, z: nat)
    requires x >= y
    ensures x * z >= y * z
  {
  }

  lemma OneLess(x: int, m: int)
    ensures (x - 1) * m == x * m - m
  {
  }

  lemma SignMask(shift: nat)
    requires shift < 64
    ensures Pow2(64 - shift) >= 1 &&
            ShiftLeft(U64 - 1, shift) == (Pow2(64 - shift) - 1) * Pow2(shift) == U64 - Pow2(shift)
  {
    hide ShiftLeft, Pow2;
    Pow2Sum(64 - shift, shift);
    Powers();
    Pow2Grows(shift, 64);
    ShiftedOut(U64 - 1, shift);
    var m := Pow2(shift);
    OneLess(Pow2(64 - shift), m);
    WordRest((U64 - 1) * m, m - 1, U64 - m);
  }

  lemma NoneUpToTen(p: seq<Byte>)
    requires |p| >= 10 && AllContinue(p[..10])
    ensures DecodesSleb(p, TooBig) && DecodesSleb(p, Undefined)
  {
    hide OneNumber, SignedSpelled, AllContinue;
    NotEnded(p[..10]);
    forall n | 0 < n <= 10 ensures !OneNumber(p[..n]) {
      assert p[..10][..n] == p[..n];
    }
  }

  lemma TooBigTenth(p: seq<Byte>)
    requires |p| >= 10 && AllContinue(p[..9]) && p[9] % 128 != 0 && p[9] % 128 != 127
    ensures DecodesSleb(p, TooBig)
  {
    hide OneNumber, SignedSpelled, AllContinue;
    EndsHere(p, 9);
    TenthFits(p);
  }

  lemma SignedExhausted(p: seq<Byte>)
    requires AllContinue(p)
    ensures DecodesSleb(p, Undefined)
  {
    hide OneNumber, SignedSpelled;
    NotEnded(p);
  }

  lemma SignedDecoded(p: seq<Byte>, k: nat)
    requires k < |p| && k < 10 && AllContinue(p[..k]) && p[k] < 128 && FitsSigned(SignedSpelled(p[..k + 1]))
    ensures DecodesSleb(p, Decoded(SignedSpelled(p[..k + 1]), k + 1))
  {
    hide OneNumber, SignedSpelled, AllContinue;
    EndsHere(p, k);
  }

  method DecodeSleb128(p: seq<Byte>) returns (o: Outcome)
    ensures DecodesSleb(p, o) && (o.Decoded? ==> 0 < o.size <= |p| && FitsSigned(o.value))
  {
    hide Spelled, SignedSpelled, OneNumber, AllContinue, DecodesSleb, ShiftLeft, BitOr, Pow2, Gathered;
    var bits, shift, k := 0, 0, 0;
    var byte := 0;
    var more := true;
    Start(p);
    assert Gathered(p, 0) == 0 by { GatheredNone(p); }
    while more
      invariant 0 <= k <= |p| && k <= 10 && shift == 7 * k
      invariant 0 <= bits == Gathered(p, k) < U64
      invariant more ==> AllContinue(p[..k])
      invariant !more ==> k > 0 && AllContinue(p[..k - 1]) && byte == p[k - 1] < 128
      invariant k == 10 ==> p[9] % 128 == 0 || p[9] % 128 == 127
      decreases more, |p| - k
    {
      if k == |p| {
        assert p[..k] == p;
        SignedExhausted(p);
        return Undefined;
      }
      if k == 10 { NoneUpToTen(p); }
      byte := p[k];
      var slice := byte % 128;
      if (shift >= 64 && slice != if bits >= I64 then 127 else 0) || (shift == 63 && slice != 0 && slice != 127) {
        if k == 9 { TooBigTenth(p); }
        return TooBig;
      }
      if shift >= 64 {
        return Undefined;
      }
      GatherNext(p, k);
      bits := BitOr(bits, ShiftLeft(slice, shift));
      shift := shift + 7;
      EndsHere(p, k);
      more := byte >= 128;
      k := k + 1;
    }
    AllGathered(p, k, bits);
    if shift < 64 && byte % 128 >= 64 {
      bits := BitOr(bits, ShiftLeft(U64 - 1, shift));
    }
    SignedDecoded(p, k - 1);
    return Decoded(Signed(bits), k);
  }

  lemma GatheredNone(p: seq<Byte>)
    ensures Gathered(p, 0) == 0
  {
  }

  lemma AllGathered(p: seq<Byte>, k: nat, bits: nat)
    requires 0 < k <= |p| && k <= 10 && bits == Gathered(p, k)
    requires k == 10 ==> p[9] % 128 == 0 || p[9] % 128 == 127
    ensures FitsSigned(SignedSpelled(p[..k]))
    ensures if 7 * k < 64 && p[k - 1] % 128 >= 64 then
            Signed(BitOr(bits, ShiftLeft(U64 - 1, 7 * k))) == SignedSpelled(p[..k])
            else Signed(bits) == SignedSpelled(p[..k])
  {
    hide Spelled, SignedSpelled, ShiftLeft, BitOr, Pow2;
    if k == 10 { TenthFits(p); } else { SignExtended(p, k); }
  }

  // ----- round trips

  /** Decoding undoes encoding, whatever bytes follow. */
  lemma UlebRoundTrip(value: nat, rest: seq<Byte>, o: Outcome)
    requires value < U64 && DecodesUleb(Uleb(value) + rest, o)
    ensures o == Decoded(value, |Uleb(value)|)
  {
    hide Spelled, OneNumber, Uleb;
    UlebSpells(value);
    AtMostTen();
    assert (Uleb(value) + rest)[..|Uleb(value)|] == Uleb(value);
  }

  lemma SlebRoundTrip(value: int, rest: seq<Byte>, o: Outcome)
    requires FitsSigned(value) && DecodesSleb(Sleb(value) + rest, o)
    ensures o == Decoded(value, |Sleb(value)|)
  {
    hide SignedSpelled, OneNumber, Sleb;
    SlebSpells(value);
    AtMostTen();
    assert (Sleb(value) + rest)[..|Sleb(value)|] == Sleb(value);
  }
}
