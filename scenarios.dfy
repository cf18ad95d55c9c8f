/** Call sequences taken from the sample programs, stated against the writer:
    the failures the samples expect are the ones the model reports, and a
    failed call leaves the writer as it was. */
module Scenarios {
  import opened Errors
  import opened Text
  import opened BedNeedle
  import opened Carriers
  import opened Opcodes
  import opened Knitout

  /** Three carrier names as the sample uses them: distinct, non-empty,
      without surrounding whitespace and without delimiters. */
  predicate Names(a: string, b: string, c: string)
  {
    a != b && a != c && b != c &&
    a != "" && b != "" && c != "" &&
    Trim(a) == a && Trim(b) == b && Trim(c) == c &&
    !HasDelimiter(a) && !HasDelimiter(b) && !HasDelimiter(c)
  }

  /** A trimmed name that is not in goes in. */
  lemma BringInStep(m: CarrierMap, hook: bool, c: string)
    requires c != "" && Trim(c) == c && c !in m
    ensures Step(m, BringIn(hook), c) == Success(m[c := hook])
  {
  }

  /** A trimmed name goes out when it is in, and fails otherwise. */
  lemma TakeOutStep(m: CarrierMap, c: string)
    requires c != "" && Trim(c) == c
    ensures Step(m, TakeOut, c) == if c in m then Success(m - {c}) else Failure(CarrierNotIn)
  {
  }

  /** `in({a, b, c})` from no carriers brings all three in, off the hook. */
  lemma SampleIn(a: string, b: string, c: string)
    requires Names(a, b, c)
    ensures ListCall(map[], BringIn(false), [a, b, c]) == Applied(map[a := false, b := false, c := false], Done)
  {
    var m1: CarrierMap := map[a := false];
    var m2: CarrierMap := map[a := false, b := false];
    BringInStep(map[], false, a);
    BringInStep(m1, false, b);
    BringInStep(m2, false, c);
    var m3 := map[a := false, b := false, c := false];
    assert [a, b, c][1..] == [b, c] && [b, c][1..] == [c] && [c][1..] == [];
    assert ApplyAll(m2, BringIn(false), [c]) == Applied(m3, Done);
    assert ApplyAll(m1, BringIn(false), [b, c]) == Applied(m3, Done);
  }

  /** `inhook(c)` with c already in fails and changes nothing. */
  lemma SampleInHookAgain(m: CarrierMap, c: string)
    requires c != "" && Trim(c) == c && !HasDelimiter(c) && c in m
    ensures ListCall(m, BringIn(true), CarrierSet(c)) == Applied(m, Failed(CarrierAlreadyIn))
  {
    OneCarrierCall(m, BringIn(true), c);
  }

  /** `releasehook(a)` with a in but off the hook fails and changes nothing. */
  lemma SampleReleaseOffHook(m: CarrierMap, a: string)
    requires a != "" && !HasDelimiter(a) && a in m && !m[a]
    ensures ListCall(m, Carriers.ReleaseHook, CarrierSet(a)) == Applied(m, Failed(CarrierNotInHook))
  {
    OneCarrierCall(m, Carriers.ReleaseHook, a);
  }

  /** `out({a, b, c})` takes all three out; a second `out` on them fails at
      the first name. */
  lemma SampleOut(a: string, b: string, c: string)
    requires Names(a, b, c)
    ensures ListCall(map[a := false, b := false, c := false], TakeOut, [a, b, c]) == Applied(map[], Done)
    ensures ListCall(map[], TakeOut, [a, b, c]) == Applied(map[], Failed(CarrierNotIn))
  {
    var m0: CarrierMap := map[a := false, b := false, c := false];
    var m1: CarrierMap := map[b := false, c := false];
    var m2: CarrierMap := map[c := false];
    assert m0 - {a} == m1 && m1 - {b} == m2 && m2 - {c} == map[];
    TakeOutStep(m0, a);
    TakeOutStep(m1, b);
    TakeOutStep(m2, c);
    TakeOutStep(map[], a);
    assert [a, b, c][1..] == [b, c] && [b, c][1..] == [c] && [c][1..] == [];
    assert ApplyAll(m2, TakeOut, [c]) == Applied(map[], Done);
    assert ApplyAll(m1, TakeOut, [b, c]) == Applied(map[], Done);
  }

  /** The sample's `out("A, B, C")`: names written with ", " between them
      hold a delimiter, so the string is split back into the names. */
  lemma CommaSeparatedNames(a: string, b: string, c: string)
    requires Names(a, b, c)
    ensures HasDelimiter(a + ", " + b + ", " + c)
    ensures CarrierSet(a + ", " + b + ", " + c) == [a, b, c]
  {
    var s := a + ", " + b + ", " + c;
    assert s[|a|] == ',';
    assert Join([a, b, c], ", ") == s by {
      assert [a, b, c][1..] == [b, c] && [b, c][1..] == [c];
      assert Join([b, c], ", ") == b + ", " + c;
      Assoc(a + ", ", b + ", ", c);
      Assoc(a + ", ", b, ", ");
    }
    assert s + "" == s;
    SplitAnyOfJoin([a, b, c], ", ", "");
  }

  /** A carrier brought in on the hook is released once; a second release
      fails and changes nothing. */
  lemma HookOnce(c: string)
    requires c != "" && Trim(c) == c && !HasDelimiter(c)
    ensures CarrierSet(c) == [c]
    ensures ListCall(map[], BringIn(true), [c]) == Applied(map[c := true], Done)
    ensures ListCall(map[c := true], Carriers.ReleaseHook, [c]) == Applied(map[c := false], Done)
    ensures ListCall(map[c := false], Carriers.ReleaseHook, [c]) == Applied(map[c := false], Failed(CarrierNotInHook))
  {
    OneCarrierCall(map[], BringIn(true), c);
    OneCarrierCall(map[c := true], Carriers.ReleaseHook, c);
    OneCarrierCall(map[c := false], Carriers.ReleaseHook, c);
    assert map[c := true][c := false] == map[c := false];
  }

  /** The carrier calls of the sample: three carriers go in; `inhook` on
      the third fails because it is already in, `releasehook` on the first
      because it was not brought in on the hook. Failed calls write
      nothing. */
  method CarrierSession(a: string, b: string, c: string)
    requires Names(a, b, c)
  {
    var w := new Writer([b, a, "2", c]);
    SampleIn(a, b, c);
    var st := w.InList([a, b, c]);
    assert st == Done && w.carriers == map[a := false, b := false, c := false];
    ghost var lines := [CarrierLine("in", [a, b, c])];
    assert w.operations == lines;

    SampleInHookAgain(w.carriers, c);
    st := w.InHook(c);
    assert st == Failed(CarrierAlreadyIn);
    SampleReleaseOffHook(w.carriers, a);
    st := w.ReleaseHook(a);
    assert st == Failed(CarrierNotInHook) && w.operations == lines;
  }

  /** The end of the sample: `out` on the three names written as one
      comma-separated string empties the carriers, and a following `outhook` on them fails and writes
      nothing. */
  method OutSession(a: string, b: string, c: string)
    requires Names(a, b, c)
  {
    var w := new Writer([b, a, "2", c]);
    SampleIn(a, b, c);
    var st := w.InList([a, b, c]);
    assert st == Done && w.carriers == map[a := false, b := false, c := false];
    SampleOut(a, b, c);
    CommaSeparatedNames(a, b, c);
    st := w.Out(a + ", " + b + ", " + c);
    assert st == Done && w.carriers == map[];
    ghost var lines := [CarrierLine("in", [a, b, c]), CarrierLine("out", [a, b, c])];
    assert w.operations == lines;
    st := w.OutHookList([a, b, c]);
    assert st == Failed(CarrierNotIn) && w.operations == lines;
  }

  /** A carrier brought in on the hook is released from it and stays in;
      each call writes its line. */
  method HookSession(c: string)
    requires c != "" && Trim(c) == c && !HasDelimiter(c)
  {
    var w := new Writer([c]);
    HookOnce(c);
    var st := w.InHook(c);
    assert st == Done && w.carriers == map[c := true];
    st := w.ReleaseHook(c);
    assert st == Done && w.carriers == map[c := false];
    assert |w.operations| == 2 && w.operations[1] == CarrierLine("releasehook", [c]);
  }

  /** Knitting with a carrier loads the needle; a bad direction is refused
      and changes nothing. */
  method KnitSession(bed: string, needle: int32, c: string)
    requires ValidBed(bed) && needle >= 0
    requires c != "" && Trim(c) == c && !HasDelimiter(c)
  {
    var w := new Writer([c]);
    assert CarrierArg(c) == [c] && AllNamed([c]);
    assert ValidDirection("+") && !ValidDirection("_");
    var st := w.Knit("+", bed, needle, c);
    assert st == Done && w.needles == {Token(bed, needle)};
    st := w.Knit("_", bed, needle, c);
    assert st == Failed(InvalidDirection) && w.needles == {Token(bed, needle)};
  }

  /** Miss without carriers is refused, and dropping a loaded needle
      unloads it. */
  method DropSession(bed: string, needle: int32, c: string)
    requires ValidBed(bed) && needle >= 0
    requires c != "" && Trim(c) == c && !HasDelimiter(c)
  {
    var w := new Writer([c]);
    assert CarrierArg(c) == [c] && AllNamed([c]);
    assert ValidDirection("+");
    var st := w.Knit("+", bed, needle, c);
    assert st == Done && w.needles == {Token(bed, needle)};
    st := w.MissList("+", bed, needle, []);
    assert st == Failed(NoCarriersForMiss);
    st := w.Drop(bed, needle);
    assert st == Done && w.needles == {};
  }
}
