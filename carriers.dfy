/** The carrier state machine: which carriers are in, and whether each is
    still on the yarn-inserting hook. The state is a map from carrier name to
    its hook flag, so a carrier has a hook flag exactly while it is in. */
module Carriers {
  import opened Errors
  import opened Text

  /** `_currentCarriers`: name of each carrier that is in -> is it on the hook. */
  type CarrierMap = map<string, bool>

  /** The three per-carrier transitions: `internalIn` (with its `useHook`
      flag), `internalReleaseHook` and `internalOut`. */
  datatype CarrierOp = BringIn(hook: bool) | ReleaseHook | TakeOut

  /** One carrier transition. "in" and "out" trim the name first and refuse an
      empty one; "releasehook" uses the name as given. */
  function Step(m: CarrierMap, op: CarrierOp, c: string): Result<CarrierMap>
  {
    match op
    case BringIn(hook) =>
      var name := Trim(c);
      if name == "" then Failure(MissingCarrierName)
      else if name in m then Failure(CarrierAlreadyIn)
      else Success(m[name := hook])
    case ReleaseHook =>
      if c == "" then Failure(MissingCarrierName)
      else if c !in m then Failure(CarrierNotIn)
      else if !m[c] then Failure(CarrierNotInHook)
      else Success(m[c := false])
    case TakeOut =>
      var name := Trim(c);
      if name == "" then Failure(MissingCarrierName)
      else if name !in m then Failure(CarrierNotIn)
      else Success(m - {name})
  }

  /** A single transition does what its name says, and touches no other carrier. */
  lemma StepSpec(m: CarrierMap, op: CarrierOp, c: string)
    ensures op.BringIn? ==>
      (Step(m, op, c).Success? <==> Trim(c) != "" && Trim(c) !in m) &&
      (Step(m, op, c).Success? ==> Step(m, op, c).value == m[Trim(c) := op.hook])
    ensures op.ReleaseHook? ==>
      (Step(m, op, c).Success? <==> c != "" && c in m && m[c]) &&
      (Step(m, op, c).Success? ==> Step(m, op, c).value == m[c := false])
    ensures op.TakeOut? ==>
      (Step(m, op, c).Success? <==> Trim(c) != "" && Trim(c) in m) &&
      (Step(m, op, c).Success? ==> Step(m, op, c).value == m - {Trim(c)})
    ensures Step(m, op, c).Success? ==>
      forall n :: n != Trim(c) && n != c ==>
        (n in Step(m, op, c).value <==> n in m) &&
        (n in m ==> Step(m, op, c).value[n] == m[n])
  {
  }

  /** The carriers after a list call, and the call's outcome. */
  datatype Applied = Applied(carriers: CarrierMap, status: Status)

  /** The list forms: each name in turn, stopping at the first failure and
      keeping the effect of the names before it. */
  function ApplyAll(m: CarrierMap, op: CarrierOp, cs: seq<string>): Applied
    decreases |cs|
  {
    if cs == [] then Applied(m, Done)
    else
      match Step(m, op, cs[0])
      case Failure(e) => Applied(m, Failed(e))
      case Success(m') => ApplyAll(m', op, cs[1..])
  }

  /** A list call: an empty list is refused before anything happens. */
  function ListCall(m: CarrierMap, op: CarrierOp, cs: seq<string>): Applied
  {
    if cs == [] then Applied(m, Failed(EmptyCarrierSet)) else ApplyAll(m, op, cs)
  }

  /** Applying `a + b` applies `a`, then, if that went through, `b`. */
  lemma {:induction false} ApplyAllAppend(m: CarrierMap, op: CarrierOp, a: seq<string>, b: seq<string>)
    ensures ApplyAll(m, op, a + b) ==
      (var r := ApplyAll(m, op, a); if r.status.Failed? then r else ApplyAll(r.carriers, op, b))
    decreases |a|
  {
    if a == [] {
      assert a + b == b;
    } else {
      assert (a + b)[0] == a[0];
      assert (a + b)[1..] == a[1..] + b;
      match Step(m, op, a[0])
      case Failure(e) =>
      case Success(m') => ApplyAllAppend(m', op, a[1..], b);
    }
  }

  /** The list forms are not all-or-nothing: when the names before position
      `k` go through and name `k` fails, the call reports that failure and
      keeps the effect of the names before `k`. */
  lemma FailureKeepsEarlierNames(m: CarrierMap, op: CarrierOp, cs: seq<string>, k: nat)
    requires k < |cs|
    requires ApplyAll(m, op, cs[..k]).status.Done?
    requires Step(ApplyAll(m, op, cs[..k]).carriers, op, cs[k]).Failure?
    ensures ApplyAll(m, op, cs) ==
      Applied(ApplyAll(m, op, cs[..k]).carriers, Failed(Step(ApplyAll(m, op, cs[..k]).carriers, op, cs[k]).error))
  {
    assert cs == cs[..k] + cs[k..];
    ApplyAllAppend(m, op, cs[..k], cs[k..]);
    assert cs[k..][0] == cs[k];
  }

  /** The trimmed names of a carrier list. */
  function Trimmed(cs: seq<string>): (r: seq<string>)
    ensures |r| == |cs| && forall i :: 0 <= i < |cs| ==> r[i] == Trim(cs[i])
  {
    if cs == [] then [] else [Trim(cs[0])] + Trimmed(cs[1..])
  }

  /** No name occurs twice. */
  predicate Distinct(names: seq<string>)
  {
    forall i, j :: 0 <= i < j < |names| ==> names[i] != names[j]
  }

  /** Every name is non-empty and not in `m`. */
  predicate AllNew(names: seq<string>, m: CarrierMap)
  {
    forall i :: 0 <= i < |names| ==> names[i] != "" && names[i] !in m
  }

  /** Every name is non-empty and in `m`. */
  predicate AllIn(names: seq<string>, m: CarrierMap)
  {
    forall i :: 0 <= i < |names| ==> names[i] != "" && names[i] in m
  }

  /** Every name is non-empty, in `m`, and on the hook. */
  predicate AllOnHook(names: seq<string>, m: CarrierMap)
  {
    forall i :: 0 <= i < |names| ==> names[i] != "" && names[i] in m && m[names[i]]
  }

  lemma DistinctCons(t: string, rest: seq<string>)
    ensures Distinct([t] + rest) <==> Distinct(rest) && t !in rest
  {
    var s := [t] + rest;
    assert forall i :: 0 <= i < |rest| ==> rest[i] == s[i + 1];
    if Distinct(s) {
      forall j | 0 <= j < |rest| ensures rest[j] != t {
        assert s[0] != s[j + 1];
      }
    }
    if Distinct(rest) && t !in rest {
      forall i, j | 0 <= i < j < |s| ensures s[i] != s[j] {
        if i == 0 { assert s[j] == rest[j - 1]; }
      }
    }
  }

  lemma AllNewCons(t: string, rest: seq<string>, m: CarrierMap, hook: bool)
    ensures AllNew([t] + rest, m) && t !in rest <==> t != "" && t !in m && AllNew(rest, m[t := hook])
  {
    var s := [t] + rest;
    assert forall i :: 0 <= i < |rest| ==> rest[i] == s[i + 1];
    assert AllNew(s, m) ==> s[0] == t;
  }

  lemma AllInCons(t: string, rest: seq<string>, m: CarrierMap)
    ensures AllIn([t] + rest, m) && t !in rest <==> t != "" && t in m && AllIn(rest, m - {t})
  {
    var s := [t] + rest;
    assert forall i :: 0 <= i < |rest| ==> rest[i] == s[i + 1];
    assert AllIn(s, m) ==> s[0] == t;
  }

  lemma AllOnHookCons(c: string, rest: seq<string>, m: CarrierMap)
    ensures AllOnHook([c] + rest, m) && c !in rest <==> c != "" && c in m && m[c] && AllOnHook(rest, m[c := false])
  {
    var s := [c] + rest;
    assert forall i :: 0 <= i < |rest| ==> rest[i] == s[i + 1];
    assert AllOnHook(s, m) ==> s[0] == c;
  }

  /** "in" on a list goes through exactly when every trimmed name is
      non-empty, not yet in, and named once. */
  lemma {:induction false} BringInAllOk(m: CarrierMap, hook: bool, cs: seq<string>)
    ensures ApplyAll(m, BringIn(hook), cs).status.Done? <==> AllNew(Trimmed(cs), m) && Distinct(Trimmed(cs))
    decreases |cs|
  {
    if cs != [] {
      var t := Trim(cs[0]);
      var rest := cs[1..];
      var tr := Trimmed(rest);
      assert AllNew(Trimmed(cs), m) && Distinct(Trimmed(cs)) <==>
             t != "" && t !in m && AllNew(tr, m[t := hook]) && Distinct(tr) by {
        assert Trimmed(cs) == [t] + tr;
        DistinctCons(t, tr);
        AllNewCons(t, tr, m, hook);
      }
      if t != "" && t !in m {
        assert ApplyAll(m, BringIn(hook), cs) == ApplyAll(m[t := hook], BringIn(hook), rest);
        BringInAllOk(m[t := hook], hook, rest);
      } else {
        assert ApplyAll(m, BringIn(hook), cs).status.Failed?;
      }
    }
  }

  /** After a successful "in" on a list, the carriers are the old ones plus
      the trimmed names, each with the hook flag of the call. */
  lemma {:induction false} BringInAllEffect(m: CarrierMap, hook: bool, cs: seq<string>)
    requires ApplyAll(m, BringIn(hook), cs).status.Done?
    ensures var r := ApplyAll(m, BringIn(hook), cs).carriers;
      (forall n :: n in r <==> n in m || n in Trimmed(cs)) &&
      (forall n :: n in r ==> r[n] == if n in Trimmed(cs) then hook else m[n])
    decreases |cs|
  {
    if cs != [] {
      var t := Trim(cs[0]);
      var rest := cs[1..];
      assert Trimmed(cs) == [t] + Trimmed(rest);
      BringInAllEffect(m[t := hook], hook, rest);
    }
  }

  /** One step of "out" on a list: the first trimmed name leaves the map,
      or the call stops there. */
  lemma TakeOutHead(m: CarrierMap, cs: seq<string>)
    requires cs != []
    ensures Trim(cs[0]) != "" && Trim(cs[0]) in m ==>
      ApplyAll(m, TakeOut, cs) == ApplyAll(m - {Trim(cs[0])}, TakeOut, cs[1..])
    ensures !(Trim(cs[0]) != "" && Trim(cs[0]) in m) ==> ApplyAll(m, TakeOut, cs).status.Failed?
  {
  }

  /** "out" on a list goes through exactly when every trimmed name is
      non-empty, in, and named once. */
  lemma {:induction false} TakeOutAllOk(m: CarrierMap, cs: seq<string>)
    ensures ApplyAll(m, TakeOut, cs).status.Done? <==> AllIn(Trimmed(cs), m) && Distinct(Trimmed(cs))
    decreases |cs|
  {
    if cs != [] {
      var t := Trim(cs[0]);
      var rest := cs[1..];
      var names := Trimmed(rest);
      assert Trimmed(cs) == [t] + names;
      DistinctCons(t, names);
      AllInCons(t, names, m);
      var ok := AllIn(Trimmed(cs), m) && Distinct(Trimmed(cs));
      assert ok == (t != "" && t in m && AllIn(names, m - {t}) && Distinct(names));
      TakeOutHead(m, cs);
      if t != "" && t in m {
        TakeOutAllOk(m - {t}, rest);
      }
    }
  }

  /** After a successful "out" on a list, exactly the named carriers are gone
      and the others keep their hook flags. */
  lemma {:induction false} TakeOutAllEffect(m: CarrierMap, cs: seq<string>)
    requires ApplyAll(m, TakeOut, cs).status.Done?
    ensures var r := ApplyAll(m, TakeOut, cs).carriers;
      (forall n :: n in r <==> n in m && n !in Trimmed(cs)) &&
      (forall n :: n in r ==> r[n] == m[n])
    decreases |cs|
  {
    if cs != [] {
      var t := Trim(cs[0]);
      var rest := cs[1..];
      assert Trimmed(cs) == [t] + Trimmed(rest);
      TakeOutAllEffect(m - {t}, rest);
    }
  }

  /** "releasehook" on a list goes through exactly when every name is
      non-empty, in, on the hook, and named once. */
  lemma {:induction false} ReleaseAllOk(m: CarrierMap, cs: seq<string>)
    ensures ApplyAll(m, ReleaseHook, cs).status.Done? <==> AllOnHook(cs, m) && Distinct(cs)
    decreases |cs|
  {
    if cs != [] {
      var c := cs[0];
      var rest := cs[1..];
      assert cs == [c] + rest;
      DistinctCons(c, rest);
      AllOnHookCons(c, rest, m);
      if c != "" && c in m && m[c] {
        ReleaseAllOk(m[c := false], rest);
      }
    }
  }

  /** After a successful "releasehook" on a list, exactly the named carriers
      are off the hook, still in, and nothing else changes. */
  lemma {:induction false} ReleaseAllEffect(m: CarrierMap, cs: seq<string>)
    requires ApplyAll(m, ReleaseHook, cs).status.Done?
    ensures var r := ApplyAll(m, ReleaseHook, cs).carriers;
      r.Keys == m.Keys &&
      (forall n :: n in r ==> r[n] == if n in cs then false else m[n])
    decreases |cs|
  {
    if cs != [] {
      var c := cs[0];
      var rest := cs[1..];
      assert cs == [c] + rest;
      ReleaseAllEffect(m[c := false], rest);
    }
  }
}
