/** The bed/needle token grammar: direction and bed validation, the needle
    range, the loop-set key `makeKey`, and `parseBedNeedle`, which reads a
    combined token such as `f10` or `bs-3`. */
module BedNeedle {
  import opened Errors
  import opened Text

  /** A C++ `int` on the platforms the writer targets. */
  newtype int32 = x: int | -0x8000_0000 <= x < 0x8000_0000

  /** `LONG_MAX` of an LP64 platform, where `strtol` saturates on overflow. */
  const LongMax: nat := 0x7FFF_FFFF_FFFF_FFFF

  /** The twelve bed spellings `validateBed` accepts. */
  const Beds: seq<string> := ["f", "b", "fs", "bs", "f-", "f+", "b-", "b+", "fs-", "fs+", "bs-", "bs+"]

  /** `validateDirection`. */
  predicate ValidDirection(d: string)
  {
    d == "+" || d == "-"
  }

  /** `validateBed`: `f` or `b`, then optionally `s`, `-` or `+`, or `s`
      followed by `-` or `+`. */
  predicate ValidBed(b: string)
  {
    |b| >= 1 && (b[0] == 'f' || b[0] == 'b') &&
    (|b| == 1
     || (|b| == 2 && (b[1] == 's' || b[1] == '-' || b[1] == '+'))
     || (|b| == 3 && b[1] == 's' && (b[2] == '-' || b[2] == '+')))
  }

  function DirectionStatus(d: string): Status
  {
    if ValidDirection(d) then Done else Failed(InvalidDirection)
  }

  function BedStatus(b: string): Status
  {
    if ValidBed(b) then Done else Failed(InvalidBed)
  }

  /** `validateNeedle`: needle numbers are never negative. */
  function NeedleStatus(n: int32): Status
  {
    if n >= 0 then Done else Failed(InvalidNeedle)
  }

  /** `validateBed` accepts exactly the twelve spellings of `Beds`. */
  lemma {:induction false} ValidBedExactly(b: string)
    ensures ValidBed(b) <==> b in Beds
  {
    if ValidBed(b) {
      if |b| == 1 {
        assert b == [b[0]];
      } else if |b| == 2 {
        assert b == [b[0], b[1]];
      } else {
        assert b == [b[0], b[1], b[2]];
      }
    }
  }

  /** A valid bed has no digit, no whitespace and no comma. */
  lemma ValidBedChars(b: string)
    requires ValidBed(b)
    ensures forall i :: 0 <= i < |b| ==> !IsDigit(b[i]) && !IsSpace(b[i]) && b[i] != ','
  {
  }

  /** The bed+needle text written on an operation line: `bed + toString(needle)`. */
  function Token(bed: string, needle: int32): string
  {
    bed + IntToString(needle as int)
  }

  /** `makeKey`: the key of a needle in the set of loaded needles. */
  function MakeKey(bed: string, needle: int32): string
  {
    Trim(bed) + IntToString(needle as int)
  }

  /** For a valid bed the key is the token written on the line. */
  lemma KeyIsToken(bed: string, needle: int32)
    requires ValidBed(bed)
    ensures MakeKey(bed, needle) == Token(bed, needle)
  {
    ValidBedChars(bed);
    assert bed != [] && !IsSpace(bed[0]) && !IsSpace(bed[|bed| - 1]);
    TrimKeeps(bed);
    assert Trim(bed) == bed;
  }

  /** The `int` a C++ assignment `int needle = strtol(...)` stores: `strtol`
      saturates at `LONG_MAX`, and the conversion to `int` keeps the low
      32 bits. */
  function ToInt32(v: nat): (r: int32)
    ensures v < 0x8000_0000 ==> r as int == v
  {
    var l := if v > LongMax then LongMax else v;
    var w := l % 0x1_0000_0000;
    (if w >= 0x8000_0000 then w - 0x1_0000_0000 else w) as int32
  }

  datatype BedNeedle = BedNeedle(bed: string, needle: int32)

  /** Index of the first digit of `s` at or after `from`, or `|s|`. */
  function FirstDigit(s: string, from: nat): (r: nat)
    requires from <= |s|
    ensures from <= r <= |s|
    ensures r < |s| ==> IsDigit(s[r])
    ensures forall k :: from <= k < r ==> !IsDigit(s[k])
    decreases |s| - from
  {
    if from == |s| then |s| else if IsDigit(s[from]) then from else FirstDigit(s, from + 1)
  }

  /** `parseBedNeedle`: the bed is everything before the first digit (not
      validated here), the needle everything from it on, which must pass
      `isNumber` and is then read by `strtol` into an `int`. */
  function Parse(token: string): Result<BedNeedle>
  {
    var pos := FirstDigit(token, 0);
    if pos == |token| then Failure(MalformedBedNeedle)
    else
      var needleText := token[pos..];
      if !IsNumber(needleText) then Failure(NeedleNotInteger)
      else Success(BedNeedle(token[..pos], ToInt32(DigitsValue(needleText))))
  }

  /** `parseBedNeedle` as the writer runs it: a scan for the first digit,
      then the split of the token at that digit. */
  method ParseBedNeedle(token: string) returns (r: Result<BedNeedle>)
    ensures r == Parse(token)
    ensures r.Failure? <==> (forall i :: 0 <= i < |token| ==> !IsDigit(token[i]))
                            || !AllDigits(token[FirstDigit(token, 0)..])
  {
    var pos := 0;
    while pos < |token| && !IsDigit(token[pos])
      invariant 0 <= pos <= |token|
      invariant forall k :: 0 <= k < pos ==> !IsDigit(token[k])
    {
      pos := pos + 1;
    }
    if pos == |token| {
      return Failure(MalformedBedNeedle);
    }
    assert pos == FirstDigit(token, 0);
    var needleText := token[pos..];
    DigitLedNumber(needleText);
    if !IsNumber(needleText) {
      return Failure(NeedleNotInteger);
    }
    r := Success(BedNeedle(token[..pos], ToInt32(DigitsValue(needleText))));
  }

  /** The first digit of a digit-free prefix followed by a digit-led rest is
      where the rest starts. */
  lemma FirstDigitAfter(pre: string, rest: string)
    requires forall i :: 0 <= i < |pre| ==> !IsDigit(pre[i])
    requires rest != [] && IsDigit(rest[0])
    ensures FirstDigit(pre + rest, 0) == |pre|
  {
    var s := pre + rest;
    var r := FirstDigit(s, 0);
    assert s[|pre|] == rest[0];
  }

  /** Round trip: the key of a valid bed and needle parses back to that bed
      and needle. */
  lemma {:induction false} ParseMakeKey(bed: string, needle: int32)
    requires ValidBed(bed) && needle >= 0
    ensures Parse(MakeKey(bed, needle)) == Success(BedNeedle(bed, needle))
  {
    var digits := NatToString(needle as int);
    KeyIsDigits(bed, needle);
    ValidBedChars(bed);
    ParseDigitLed(bed, digits);
    DigitsValueOfNatToString(needle as int);
    assert ToInt32(DigitsValue(digits)) as int == needle as int;
  }

  /** The key of a valid bed and a needle that is not negative: the bed,
      then the needle's decimal digits. */
  lemma KeyIsDigits(bed: string, needle: int32)
    requires ValidBed(bed) && needle >= 0
    ensures MakeKey(bed, needle) == bed + NatToString(needle as int)
  {
    var n: nat := needle as int;
    KeyIsToken(bed, needle);
    assert Token(bed, needle) == bed + IntToString(n);
    NatIntToString(n);
  }

  /** A number that is not negative is written without a sign. */
  lemma NatIntToString(n: nat)
    ensures IntToString(n) == NatToString(n)
  {
  }

  /** A digit-free bed followed by decimal digits parses into that bed and
      the value of the digits. */
  lemma ParseDigitLed(bed: string, digits: string)
    requires forall i :: 0 <= i < |bed| ==> !IsDigit(bed[i])
    requires digits != [] && AllDigits(digits)
    ensures Parse(bed + digits) == Success(BedNeedle(bed, ToInt32(DigitsValue(digits))))
  {
    var key := bed + digits;
    FirstDigitAfter(bed, digits);
    assert key[|bed|..] == digits;
    assert key[..|bed|] == bed;
    DigitLedNumber(digits);
  }

  /** Keys identify needles: two valid beds and needles with the same key
      are the same bed and needle. */
  lemma MakeKeyInjective(b1: string, n1: int32, b2: string, n2: int32)
    requires ValidBed(b1) && n1 >= 0 && ValidBed(b2) && n2 >= 0
    ensures MakeKey(b1, n1) == MakeKey(b2, n2) ==> b1 == b2 && n1 == n2
  {
    ParseMakeKey(b1, n1);
    ParseMakeKey(b2, n2);
  }

  /** The token written on an operation line parses back to its bed and needle. */
  lemma ParseToken(bed: string, needle: int32)
    requires ValidBed(bed) && needle >= 0
    ensures Parse(Token(bed, needle)) == Success(BedNeedle(bed, needle))
  {
    KeyIsToken(bed, needle);
    ParseMakeKey(bed, needle);
  }

  /** Tokens identify needles, as keys do. */
  lemma TokenInjective(b1: string, n1: int32, b2: string, n2: int32)
    requires ValidBed(b1) && n1 >= 0 && ValidBed(b2) && n2 >= 0
    ensures Token(b1, n1) == Token(b2, n2) ==> b1 == b2 && n1 == n2
  {
    ParseToken(b1, n1);
    ParseToken(b2, n2);
  }

  /** A token with a fractional needle such as `fs10.5` is refused as not an integer. */
  lemma ParseRejectsFraction()
    ensures Parse("fs10.5") == Failure(NeedleNotInteger)
  {
    var t := "fs10.5";
    assert FirstDigit(t, 0) == 2 by {
      assert !IsDigit(t[0]) && !IsDigit(t[1]) && IsDigit(t[2]);
    }
    assert t[2..] == "10.5";
    DigitLedNumber(t[2..]);
    assert !IsDigit(t[2..][2]);
  }
}
