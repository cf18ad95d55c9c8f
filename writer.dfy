/** `Knitout::Writer`: collects the header and operation lines of a knitout
    program, checking each call against the carriers that are in and
    tracking which needles hold loops. A call that fails reports its
    `Error` (the writer throws) at the first failed check. */
module Knitout {
  import opened Errors
  import opened Text
  import opened BedNeedle
  import opened Carriers
  import opened Opcodes
  import opened Headers
  import opened Comments

  /** The carriers a single-string argument of the carrier calls stands
      for: split with `splitAny` when it holds a delimiter, otherwise the one
      name as given. */
  function CarrierSet(c: string): (r: seq<string>)
  {
    if HasDelimiter(c) then Tokens(c, CarrierDelimiters) else [c]
  }

  /** A non-empty string made only of spaces and commas names no carrier:
      the call fails as an empty list does, and changes nothing. */
  lemma DelimitersOnlyIsEmptySet(m: CarrierMap, op: CarrierOp, c: string)
    requires c != [] && forall i :: 0 <= i < |c| ==> c[i] in CarrierDelimiters
    ensures ListCall(m, op, CarrierSet(c)) == Applied(m, Failed(EmptyCarrierSet))
  {
    OnlyDelimitersIsNoCarrier(c);
  }

  /** Applying the names from position `i` on is one transition, then the rest. */
  lemma ApplyFrom(m: CarrierMap, op: CarrierOp, cs: seq<string>, i: nat)
    requires i < |cs|
    ensures ApplyAll(m, op, cs[i..]) ==
      if Step(m, op, cs[i]).Failure? then Applied(m, Failed(Step(m, op, cs[i]).error))
      else ApplyAll(Step(m, op, cs[i]).value, op, cs[i + 1..])
  {
    assert cs[i..][0] == cs[i] && cs[i..][1..] == cs[i + 1..];
  }

  /** A call on one carrier is that carrier's transition. */
  lemma OneCarrierCall(m: CarrierMap, op: CarrierOp, c: string)
    ensures ListCall(m, op, [c]) ==
      if Step(m, op, c).Failure? then Applied(m, Failed(Step(m, op, c).error))
      else Applied(Step(m, op, c).value, Done)
  {
    assert [c][0] == c && [c][1..] == [];
    if Step(m, op, c).Success? {
      assert ApplyAll(Step(m, op, c).value, op, []) == Applied(Step(m, op, c).value, Done);
    }
  }

  /** The token of a valid bed and needle is a valid key. */
  lemma TokenIsKey(bed: string, needle: int32)
    requires ValidBed(bed) && needle >= 0
    ensures NeedleKey(Token(bed, needle))
  {
  }

  /** `makeKey(bed, needle)` as the operations compute it; once the bed is
      validated, the key is the token the line shows. */
  method KeyOf(bed: string, needle: int32) returns (key: string)
    ensures ValidBed(bed) ==> key == Token(bed, needle)
  {
    key := MakeKey(bed, needle);
    if ValidBed(bed) {
      KeyIsToken(bed, needle);
    }
  }

  /** The line the single-string form writes, with the carrier string as
      given, is the line of its carrier list. */
  lemma NeedleLineOfString(opcode: string, dir: string, bed: string, needle: int32, c: string)
    requires !HasDelimiter(c)
    ensures opcode + " " + dir + " " + bed + IntToString(needle as int) + " " + c
         == NeedleLine(opcode, dir, bed, needle, CarrierArg(c))
  {
  }

  /** The same for split. */
  lemma SplitLineOfString(dir: string, fromBed: string, fromNeedle: int32, toBed: string, toNeedle: int32, c: string)
    requires !HasDelimiter(c)
    ensures "split " + dir + " " + fromBed + IntToString(fromNeedle as int) + " " + toBed + IntToString(toNeedle as int) + " " + c
         == SplitLine(dir, fromBed, fromNeedle, toBed, toNeedle, CarrierArg(c))
  {
  }

  /** An accepted header keeps the header lines, the log and the machine in step. */
  lemma HeaderAccepted(declared: seq<string>, headers: seq<string>, log: seq<Header>, machine: string, h: Header)
    requires headers == [CarriersHeader(declared)] + HeaderLines(log)
    requires AcceptedLog(log) && machine == MachineOf(log)
    requires HeaderCheck(machine, h.name, h.value).Done?
    ensures headers + [HeaderLine(h)] == [CarriersHeader(declared)] + HeaderLines(log + [h])
    ensures AcceptedLog(log + [h]) && MachineAfter(machine, h.name, h.value) == MachineOf(log + [h])
  {
    AcceptOne(log, h);
  }

  /** The line of a carrier call: the opcode and the carriers, joined with single spaces. */
  function CarrierLine(opcode: string, cs: seq<string>): string
  {
    opcode + " " + Join(cs, " ")
  }

  /** The presser modes `fabricPresser` writes. */
  const PresserModes: seq<string> := ["auto", "on", "off"]

  /** The outcome of a needle operation. */
  function StatusOf(r: Result<Effect>): Status
  {
    if r.Success? then Done else Failed(r.error)
  }

  /** A valid key of the needle set: the token of a valid bed and needle. */
  ghost predicate NeedleKey(k: string)
  {
    exists bed: string, needle: int32 :: ValidBed(bed) && needle >= 0 && k == Token(bed, needle)
  }

  ghost predicate NeedleKeys(needles: set<string>)
  {
    forall k :: k in needles ==> NeedleKey(k)
  }

  /** The carriers are stored under trimmed, non-empty names. */
  predicate ProperNames(m: CarrierMap)
  {
    forall n :: n in m ==> n != "" && Trim(n) == n
  }

  /** A transition keeps the carrier names trimmed and non-empty. */
  lemma StepKeepsNames(m: CarrierMap, op: CarrierOp, c: string)
    requires ProperNames(m) && Step(m, op, c).Success?
    ensures ProperNames(Step(m, op, c).value)
  {
    match op
    case BringIn(hook) =>
      var m' := Step(m, op, c).value;
      assert Trim(c) != "" && m' == m[Trim(c) := hook];
      forall n | n in m'
        ensures n != "" && Trim(n) == n
      {
        if n == Trim(c) {
          TrimIdempotent(c);
        } else {
          assert n in m;
        }
      }
    case ReleaseHook =>
      var m' := Step(m, op, c).value;
      assert c in m && m' == m[c := false];
      forall n | n in m'
        ensures n != "" && Trim(n) == n
      {
        assert n in m;
      }
    case TakeOut =>
      var m' := Step(m, op, c).value;
      assert m' == m - {Trim(c)};
      forall n | n in m'
        ensures n != "" && Trim(n) == n
      {
        assert n in m;
      }
  }

  class Writer {
    /** `_carriers`: the carrier names given to the constructor. */
    const declared: seq<string>
    /** `_currentCarriers`: each carrier that is in, and whether it is on the hook. */
    var carriers: CarrierMap
    /** `_currentNeedles`: the needles that hold loops. */
    var needles: set<string>
    /** `_operations`. */
    var operations: seq<string>
    /** `_headers`. */
    var headers: seq<string>
    /** `_machine`. */
    var machine: string
    /** The headers accepted so far, behind the lines of `headers`. */
    ghost var headerLog: seq<Header>

    /** What every call keeps: the headers are the `Carriers` header and the
        accepted headers, the machine is the one those headers set, carrier
        names are trimmed and non-empty, and needle keys are tokens. */
    ghost predicate Valid()
      reads this`headers, this`headerLog, this`machine, this`carriers, this`needles
    {
      HeaderState() && ProperNames(carriers) && NeedleKeys(needles)
    }

    /** The header half of `Valid`, which the operations leave alone. */
    ghost predicate HeaderState()
      reads this`headers, this`headerLog, this`machine
    {
      headers == [CarriersHeader(declared)] + HeaderLines(headerLog) &&
      AcceptedLog(headerLog) && machine == MachineOf(headerLog)
    }

    /** The needle operation `r` was carried out from the needles `needles0`
        and the operations `ops0`, with outcome `st`. */
    ghost predicate Performed(r: Result<Effect>, needles0: set<string>, ops0: seq<string>, st: Status)
      reads this
    {
      st == StatusOf(r) &&
      needles == (if r.Success? then r.value.needles else needles0) &&
      operations == (if r.Success? then ops0 + [r.value.line] else ops0)
    }

    /** `Writer(carriers)`: the only header is `Carriers`, listing them. */
    constructor(carrierNames: seq<string>)
      ensures Valid()
      ensures declared == carrierNames && headers == [CarriersHeader(carrierNames)]
      ensures carriers == map[] && needles == {} && operations == [] && machine == ""
    {
      declared := carrierNames;
      carriers := map[];
      needles := {};
      operations := [];
      headers := [CarriersHeader(carrierNames)];
      machine := "";
      headerLog := [];
    }

    /** `internalWrite`: the magic line, the headers, then the operations,
        each in the order they were added. */
    function Output(): seq<string>
      reads this
    {
      [";!knitout-2"] + headers + operations
    }

    /** The file starts with the magic line and the `Carriers` header, and
        every line of the header section reads back as a header. */
    lemma OutputShape()
      requires Valid()
      ensures |Output()| == 2 + |headerLog| + |operations|
      ensures Output()[0] == ";!knitout-2"
      ensures ParseHeaderLine(Output()[1]) == Some(Header("Carriers", Join(declared, " ")))
      ensures forall i :: 0 <= i < |headerLog| ==> ParseHeaderLine(Output()[2 + i]) == Some(headerLog[i])
      ensures Output()[2 + |headerLog|..] == operations
    {
      CarriersHeaderReadsBack(declared);
      AcceptedLinesReadBack(headerLog);
    }

    // -------------------------------------------------------------------------
    // Headers

    /** The checks of `addHeader`, in its order, against the machine set so far. */
    method CheckHeader(name: string, value: string) returns (st: Status)
      ensures st == HeaderCheck(machine, name, value)
    {
      if Contains(name, ": ") {
        return Failed(InvalidHeaderName);
      }
      if Contains(value, "\n") {
        return Failed(InvalidHeaderValue);
      }
      if IEquals(name, "Carriers") {
        return Failed(ReservedHeaderName);
      } else if IEquals(name, "Machine") {
        if machine != "" {
          return Failed(MachineAlreadySet);
        }
      } else if IEquals(name, "Gauge") {
        if !IsNumber(value) {
          return Failed(GaugeNotNumber);
        }
      } else if IEquals(name, "Position") {
        var found := IsSupportedPosition(value);
        if !found {
          return Failed(InvalidPosition);
        }
      }
      return Done;
    }

    /** `addHeader(name, value)`: a header that passes the checks is added
        after the earlier ones, and a `Machine` header sets the machine. */
    method AddHeader(name: string, value: string) returns (st: Status)
      requires Valid()
      modifies this`headers, this`machine, this`headerLog
      ensures Valid()
      ensures st == HeaderCheck(old(machine), name, value)
      ensures st.Done? ==> headers == old(headers) + [HeaderLine(Header(name, value))] &&
                           headerLog == old(headerLog) + [Header(name, value)] &&
                           machine == MachineAfter(old(machine), name, value)
      ensures st.Failed? ==> headers == old(headers) && headerLog == old(headerLog) && machine == old(machine)
    {
      st := CheckHeader(name, value);
      if st.Failed? {
        return;
      }
      HeaderAccepted(declared, headers, headerLog, machine, Header(name, value));
      if IEquals(name, "Machine") {
        machine := value;
      }
      headers := headers + [HeaderLine(Header(name, value))];
      headerLog := headerLog + [Header(name, value)];
    }

    // -------------------------------------------------------------------------
    // Carriers

    /** `for( auto c : cs ) internalIn / internalReleaseHook / internalOut`:
        one transition per name, stopping at the first that fails. */
    method RunCarriers(op: CarrierOp, cs: seq<string>) returns (st: Status)
      requires Valid()
      modifies this`carriers
      ensures Valid()
      ensures Applied(carriers, st) == ApplyAll(old(carriers), op, cs)
    {
      var i := 0;
      while i < |cs|
        invariant 0 <= i <= |cs|
        invariant ProperNames(carriers)
        invariant ApplyAll(old(carriers), op, cs) == ApplyAll(carriers, op, cs[i..])
      {
        ApplyFrom(carriers, op, cs, i);
        var r := Step(carriers, op, cs[i]);
        if r.Failure? {
          return Failed(r.error);
        }
        StepKeepsNames(carriers, op, cs[i]);
        carriers := r.value;
        i := i + 1;
      }
      assert cs[i..] == [];
      st := Done;
    }

    /** The list forms: an empty list is refused, the names are applied in
        turn, and a line is written only when all of them went through. */
    method CarrierList(op: CarrierOp, opcode: string, cs: seq<string>) returns (st: Status)
      requires Valid()
      modifies this`carriers, this`operations
      ensures Valid()
      ensures Applied(carriers, st) == ListCall(old(carriers), op, cs)
      ensures operations == old(operations) + (if st.Done? then [CarrierLine(opcode, cs)] else [])
    {
      if |cs| == 0 {
        return Failed(EmptyCarrierSet);
      }
      st := RunCarriers(op, cs);
      if st.Done? {
        operations := operations + [CarrierLine(opcode, cs)];
      }
    }

    /** The single-string forms: a string with a delimiter goes to the list
        form under `listOpcode`; any other string is one transition, written
        under `opcode` with the name as given. */
    method CarrierSingle(op: CarrierOp, opcode: string, listOpcode: string, c: string) returns (st: Status)
      requires Valid()
      modifies this`carriers, this`operations
      ensures Valid()
      ensures Applied(carriers, st) == ListCall(old(carriers), op, CarrierSet(c))
      ensures operations == old(operations) +
        (if st.Done? then [CarrierLine(if HasDelimiter(c) then listOpcode else opcode, CarrierSet(c))] else [])
    {
      if HasDelimiter(c) {
        var cs := SplitAny(c, CarrierDelimiters);
        st := CarrierList(op, listOpcode, cs);
        return;
      }
      assert CarrierSet(c) == [c] && Join([c], " ") == c;
      OneCarrierCall(carriers, op, c);
      var r := Step(carriers, op, c);
      if r.Failure? {
        return Failed(r.error);
      }
      StepKeepsNames(carriers, op, c);
      carriers := r.value;
      operations := operations + [opcode + " " + c];
      st := Done;
    }

    /** `in(c)`: bring carriers in, off the hook. */
    method In(c: string) returns (st: Status)
      requires Valid()
      modifies this`carriers, this`operations
      ensures Valid()
      ensures Applied(carriers, st) == ListCall(old(carriers), BringIn(false), CarrierSet(c))
      ensures operations == old(operations) + (if st.Done? then [CarrierLine("in", CarrierSet(c))] else [])
    {
      st := CarrierSingle(BringIn(false), "in", "in", c);
    }

    /** `in(cs)`. */
    method InList(cs: seq<string>) returns (st: Status)
      requires Valid()
      modifies this`carriers, this`operations
      ensures Valid()
      ensures Applied(carriers, st) == ListCall(old(carriers), BringIn(false), cs)
      ensures operations == old(operations) + (if st.Done? then [CarrierLine("in", cs)] else [])
    {
      st := CarrierList(BringIn(false), "in", cs);
    }

    /** `inhook(c)`: bring carriers in on the yarn-inserting hook; the line
        says "in" as well. */
    method InHook(c: string) returns (st: Status)
      requires Valid()
      modifies this`carriers, this`operations
      ensures Valid()
      ensures Applied(carriers, st) == ListCall(old(carriers), BringIn(true), CarrierSet(c))
      ensures operations == old(operations) + (if st.Done? then [CarrierLine("in", CarrierSet(c))] else [])
    {
      st := CarrierSingle(BringIn(true), "in", "in", c);
    }

    /** `inhook(cs)`. */
    method InHookList(cs: seq<string>) returns (st: Status)
      requires Valid()
      modifies this`carriers, this`operations
      ensures Valid()
      ensures Applied(carriers, st) == ListCall(old(carriers), BringIn(true), cs)
      ensures operations == old(operations) + (if st.Done? then [CarrierLine("in", cs)] else [])
    {
      st := CarrierList(BringIn(true), "in", cs);
    }

    /** `releasehook(c)`: take carriers off the hook. */
    method ReleaseHook(c: string) returns (st: Status)
      requires Valid()
      modifies this`carriers, this`operations
      ensures Valid()
      ensures Applied(carriers, st) == ListCall(old(carriers), Carriers.ReleaseHook, CarrierSet(c))
      ensures operations == old(operations) + (if st.Done? then [CarrierLine("releasehook", CarrierSet(c))] else [])
    {
      st := CarrierSingle(Carriers.ReleaseHook, "releasehook", "releasehook", c);
    }

    /** `releasehook(cs)`. */
    method ReleaseHookList(cs: seq<string>) returns (st: Status)
      requires Valid()
      modifies this`carriers, this`operations
      ensures Valid()
      ensures Applied(carriers, st) == ListCall(old(carriers), Carriers.ReleaseHook, cs)
      ensures operations == old(operations) + (if st.Done? then [CarrierLine("releasehook", cs)] else [])
    {
      st := CarrierList(Carriers.ReleaseHook, "releasehook", cs);
    }

    /** `out(c)`: take carriers out. */
    method Out(c: string) returns (st: Status)
      requires Valid()
      modifies this`carriers, this`operations
      ensures Valid()
      ensures Applied(carriers, st) == ListCall(old(carriers), TakeOut, CarrierSet(c))
      ensures operations == old(operations) + (if st.Done? then [CarrierLine("out", CarrierSet(c))] else [])
    {
      st := CarrierSingle(TakeOut, "out", "out", c);
    }

    /** `out(cs)`. */
    method OutList(cs: seq<string>) returns (st: Status)
      requires Valid()
      modifies this`carriers, this`operations
      ensures Valid()
      ensures Applied(carriers, st) == ListCall(old(carriers), TakeOut, cs)
      ensures operations == old(operations) + (if st.Done? then [CarrierLine("out", cs)] else [])
    {
      st := CarrierList(TakeOut, "out", cs);
    }

    /** `outhook(c)`: take carriers out with the hook. A single name is
        written as "outhook"; a string with a delimiter goes to the list
        form, which writes "out". */
    method OutHook(c: string) returns (st: Status)
      requires Valid()
      modifies this`carriers, this`operations
      ensures Valid()
      ensures Applied(carriers, st) == ListCall(old(carriers), TakeOut, CarrierSet(c))
      ensures operations == old(operations) +
        (if st.Done? then [CarrierLine(if HasDelimiter(c) then "out" else "outhook", CarrierSet(c))] else [])
    {
      st := CarrierSingle(TakeOut, "outhook", "out", c);
    }

    /** `outhook(cs)`: writes "out", not "outhook". */
    method OutHookList(cs: seq<string>) returns (st: Status)
      requires Valid()
      modifies this`carriers, this`operations
      ensures Valid()
      ensures Applied(carriers, st) == ListCall(old(carriers), TakeOut, cs)
      ensures operations == old(operations) + (if st.Done? then [CarrierLine("out", cs)] else [])
    {
      st := CarrierList(TakeOut, "out", cs);
    }
    // -------------------------------------------------------------------------
    // Needle operations

    /** `knit(dir, bed, needle, c)`. */
    method Knit(dir: string, bed: string, needle: int32, c: string) returns (st: Status)
      requires Valid()
      modifies this`needles, this`operations
      ensures Valid()
      ensures Performed(KnitOp(old(needles), dir, bed, needle, CarrierArg(c)), old(needles), old(operations), st)
    {
      if HasDelimiter(c) {
        var cs := SplitAny(c, CarrierDelimiters);
        st := KnitList(dir, bed, needle, cs);
        return;
      }
      if !ValidDirection(dir) {
        return Failed(InvalidDirection);
      }
      if !ValidBed(bed) {
        return Failed(InvalidBed);
      }
      if needle < 0 {
        return Failed(InvalidNeedle);
      }
      var key := KeyOf(bed, needle);
      TokenIsKey(bed, needle);
      if |c| > 0 {
        if Trim(c) == "" {
          return Failed(MissingCarrierName);
        }
        needles := needles + {key};
      } else {
        needles := needles - {key};
      }
      NeedleLineOfString("knit", dir, bed, needle, c);
      assert "knit" + " " == "knit ";
      operations := operations + ["knit " + dir + " " + bed + IntToString(needle as int) + " " + c];
      st := Done;
    }

    /** `knit(dir, bed, needle, cs)`. */
    method KnitList(dir: string, bed: string, needle: int32, cs: seq<string>) returns (st: Status)
      requires Valid()
      modifies this`needles, this`operations
      ensures Valid()
      ensures Performed(KnitOp(old(needles), dir, bed, needle, cs), old(needles), old(operations), st)
    {
      if !ValidDirection(dir) {
        return Failed(InvalidDirection);
      }
      if !ValidBed(bed) {
        return Failed(InvalidBed);
      }
      if needle < 0 {
        return Failed(InvalidNeedle);
      }
      var key := KeyOf(bed, needle);
      TokenIsKey(bed, needle);
      if |cs| > 0 {
        st := ValidateCarriers(cs);
        if st.Failed? {
          return;
        }
        needles := needles + {key};
      } else {
        needles := needles - {key};
      }
      operations := operations + [NeedleLine("knit", dir, bed, needle, cs)];
      st := Done;
    }

    /** `knit(dir, bedNeedle, c)`: the token is parsed first. */
    method KnitAt(dir: string, bedNeedle: string, c: string) returns (st: Status)
      requires Valid()
      modifies this`needles, this`operations
      ensures Valid()
      ensures Performed(KnitTokenOp(old(needles), dir, bedNeedle, CarrierArg(c)), old(needles), old(operations), st)
    {
      var p := ParseBedNeedle(bedNeedle);
      if p.Failure? {
        return Failed(p.error);
      }
      st := Knit(dir, p.value.bed, p.value.needle, c);
    }

    /** `knit(dir, bedNeedle, cs)`. */
    method KnitAtList(dir: string, bedNeedle: string, cs: seq<string>) returns (st: Status)
      requires Valid()
      modifies this`needles, this`operations
      ensures Valid()
      ensures Performed(KnitTokenOp(old(needles), dir, bedNeedle, cs), old(needles), old(operations), st)
    {
      var p := ParseBedNeedle(bedNeedle);
      if p.Failure? {
        return Failed(p.error);
      }
      st := KnitList(dir, p.value.bed, p.value.needle, cs);
    }
    /** `tuck(dir, bed, needle, c)`: the needle holds a loop afterwards. */
    method Tuck(dir: string, bed: string, needle: int32, c: string) returns (st: Status)
      requires Valid()
      modifies this`needles, this`operations
      ensures Valid()
      ensures Performed(TuckOp(old(needles), dir, bed, needle, CarrierArg(c)), old(needles), old(operations), st)
    {
      if HasDelimiter(c) {
        var cs := SplitAny(c, CarrierDelimiters);
        st := TuckList(dir, bed, needle, cs);
        return;
      }
      if !ValidDirection(dir) {
        return Failed(InvalidDirection);
      }
      if !ValidBed(bed) {
        return Failed(InvalidBed);
      }
      if needle < 0 {
        return Failed(InvalidNeedle);
      }
      if |c| > 0 && Trim(c) == "" {
        return Failed(MissingCarrierName);
      }
      var key := KeyOf(bed, needle);
      TokenIsKey(bed, needle);
      needles := needles + {key};
      NeedleLineOfString("tuck", dir, bed, needle, c);
      assert "tuck" + " " == "tuck ";
      operations := operations + ["tuck " + dir + " " + bed + IntToString(needle as int) + " " + c];
      st := Done;
    }

    /** `tuck(dir, bed, needle, cs)`. */
    method TuckList(dir: string, bed: string, needle: int32, cs: seq<string>) returns (st: Status)
      requires Valid()
      modifies this`needles, this`operations
      ensures Valid()
      ensures Performed(TuckOp(old(needles), dir, bed, needle, cs), old(needles), old(operations), st)
    {
      if !ValidDirection(dir) {
        return Failed(InvalidDirection);
      }
      if !ValidBed(bed) {
        return Failed(InvalidBed);
      }
      if needle < 0 {
        return Failed(InvalidNeedle);
      }
      if |cs| > 0 {
        st := ValidateCarriers(cs);
        if st.Failed? {
          return;
        }
      }
      var key := KeyOf(bed, needle);
      TokenIsKey(bed, needle);
      needles := needles + {key};
      operations := operations + [NeedleLine("tuck", dir, bed, needle, cs)];
      st := Done;
    }

    /** `tuck(dir, bedNeedle, c)`. */
    method TuckAt(dir: string, bedNeedle: string, c: string) returns (st: Status)
      requires Valid()
      modifies this`needles, this`operations
      ensures Valid()
      ensures Performed(TuckTokenOp(old(needles), dir, bedNeedle, CarrierArg(c)), old(needles), old(operations), st)
    {
      var p := ParseBedNeedle(bedNeedle);
      if p.Failure? {
        return Failed(p.error);
      }
      st := Tuck(dir, p.value.bed, p.value.needle, c);
    }

    /** `tuck(dir, bedNeedle, cs)`. */
    method TuckAtList(dir: string, bedNeedle: string, cs: seq<string>) returns (st: Status)
      requires Valid()
      modifies this`needles, this`operations
      ensures Valid()
      ensures Performed(TuckTokenOp(old(needles), dir, bedNeedle, cs), old(needles), old(operations), st)
    {
      var p := ParseBedNeedle(bedNeedle);
      if p.Failure? {
        return Failed(p.error);
      }
      st := TuckList(dir, p.value.bed, p.value.needle, cs);
    }

    /** `split(dir, fromBed, fromNeedle, toBed, toNeedle, c)`. */
    method Split(dir: string, fromBed: string, fromNeedle: int32, toBed: string, toNeedle: int32, c: string)
      returns (st: Status)
      requires Valid()
      modifies this`needles, this`operations
      ensures Valid()
      ensures Performed(SplitOp(old(needles), dir, fromBed, fromNeedle, toBed, toNeedle, CarrierArg(c)),
                        old(needles), old(operations), st)
    {
      if HasDelimiter(c) {
        var cs := SplitAny(c, CarrierDelimiters);
        st := SplitList(dir, fromBed, fromNeedle, toBed, toNeedle, cs);
        return;
      }
      if !ValidDirection(dir) {
        return Failed(InvalidDirection);
      }
      if !ValidBed(fromBed) {
        return Failed(InvalidBed);
      }
      if fromNeedle < 0 {
        return Failed(InvalidNeedle);
      }
      if !ValidBed(toBed) {
        return Failed(InvalidBed);
      }
      if toNeedle < 0 {
        return Failed(InvalidNeedle);
      }
      if |c| > 0 && Trim(c) == "" {
        return Failed(MissingCarrierName);
      }
      if fromBed == toBed {
        return Failed(SameBedSplit);
      }
      MoveLoops(fromBed, fromNeedle, toBed, toNeedle);
      if |c| > 0 {
        var from := KeyOf(fromBed, fromNeedle);
        needles := needles + {from};
      }
      SplitLineOfString(dir, fromBed, fromNeedle, toBed, toNeedle, c);
      operations := operations + ["split " + dir + " " + fromBed + IntToString(fromNeedle as int) + " " +
                                  toBed + IntToString(toNeedle as int) + " " + c];
      st := Done;
    }

    /** `split(dir, fromBed, fromNeedle, toBed, toNeedle, cs)`. */
    method SplitList(dir: string, fromBed: string, fromNeedle: int32, toBed: string, toNeedle: int32, cs: seq<string>)
      returns (st: Status)
      requires Valid()
      modifies this`needles, this`operations
      ensures Valid()
      ensures Performed(SplitOp(old(needles), dir, fromBed, fromNeedle, toBed, toNeedle, cs),
                        old(needles), old(operations), st)
    {
      if !ValidDirection(dir) {
        return Failed(InvalidDirection);
      }
      if !ValidBed(fromBed) {
        return Failed(InvalidBed);
      }
      if fromNeedle < 0 {
        return Failed(InvalidNeedle);
      }
      if !ValidBed(toBed) {
        return Failed(InvalidBed);
      }
      if toNeedle < 0 {
        return Failed(InvalidNeedle);
      }
      if |cs| > 0 {
        st := ValidateCarriers(cs);
        if st.Failed? {
          return;
        }
      }
      if fromBed == toBed {
        return Failed(SameBedSplit);
      }
      MoveLoops(fromBed, fromNeedle, toBed, toNeedle);
      if |cs| > 0 {
        var from := KeyOf(fromBed, fromNeedle);
        needles := needles + {from};
      }
      operations := operations + [SplitLine(dir, fromBed, fromNeedle, toBed, toNeedle, cs)];
      st := Done;
    }

    /** `split(dir, fromBedNeedle, toBedNeedle, c)`: both tokens are parsed first. */
    method SplitAt(dir: string, fromBedNeedle: string, toBedNeedle: string, c: string) returns (st: Status)
      requires Valid()
      modifies this`needles, this`operations
      ensures Valid()
      ensures Performed(SplitTokenOp(old(needles), dir, fromBedNeedle, toBedNeedle, CarrierArg(c)),
                        old(needles), old(operations), st)
    {
      var f := ParseBedNeedle(fromBedNeedle);
      if f.Failure? {
        return Failed(f.error);
      }
      var t := ParseBedNeedle(toBedNeedle);
      if t.Failure? {
        return Failed(t.error);
      }
      st := Split(dir, f.value.bed, f.value.needle, t.value.bed, t.value.needle, c);
    }

    /** `split(dir, fromBedNeedle, toBedNeedle, cs)`. */
    method SplitAtList(dir: string, fromBedNeedle: string, toBedNeedle: string, cs: seq<string>) returns (st: Status)
      requires Valid()
      modifies this`needles, this`operations
      ensures Valid()
      ensures Performed(SplitTokenOp(old(needles), dir, fromBedNeedle, toBedNeedle, cs),
                        old(needles), old(operations), st)
    {
      var f := ParseBedNeedle(fromBedNeedle);
      if f.Failure? {
        return Failed(f.error);
      }
      var t := ParseBedNeedle(toBedNeedle);
      if t.Failure? {
        return Failed(t.error);
      }
      st := SplitList(dir, f.value.bed, f.value.needle, t.value.bed, t.value.needle, cs);
    }

    /** `miss(dir, bed, needle, c)`: needs a carrier; the loops stay as they are. */
    method Miss(dir: string, bed: string, needle: int32, c: string) returns (st: Status)
      requires Valid()
      modifies this`operations
      ensures Valid()
      ensures Performed(MissOp(needles, dir, bed, needle, CarrierArg(c)), needles, old(operations), st)
    {
      if HasDelimiter(c) {
        var cs := SplitAny(c, CarrierDelimiters);
        st := MissList(dir, bed, needle, cs);
        return;
      }
      if !ValidDirection(dir) {
        return Failed(InvalidDirection);
      }
      if !ValidBed(bed) {
        return Failed(InvalidBed);
      }
      if needle < 0 {
        return Failed(InvalidNeedle);
      }
      if |c| == 0 {
        return Failed(NoCarriersForMiss);
      }
      if Trim(c) == "" {
        return Failed(MissingCarrierName);
      }
      NeedleLineOfString("miss", dir, bed, needle, c);
      assert "miss" + " " == "miss ";
      operations := operations + ["miss " + dir + " " + bed + IntToString(needle as int) + " " + c];
      st := Done;
    }

    /** `miss(dir, bed, needle, cs)`. */
    method MissList(dir: string, bed: string, needle: int32, cs: seq<string>) returns (st: Status)
      requires Valid()
      modifies this`operations
      ensures Valid()
      ensures Performed(MissOp(needles, dir, bed, needle, cs), needles, old(operations), st)
    {
      if !ValidDirection(dir) {
        return Failed(InvalidDirection);
      }
      if !ValidBed(bed) {
        return Failed(InvalidBed);
      }
      if needle < 0 {
        return Failed(InvalidNeedle);
      }
      if |cs| == 0 {
        return Failed(NoCarriersForMiss);
      }
      st := ValidateCarriers(cs);
      if st.Failed? {
        return;
      }
      operations := operations + [NeedleLine("miss", dir, bed, needle, cs)];
    }

    /** `miss(dir, bedNeedle, c)`. */
    method MissAt(dir: string, bedNeedle: string, c: string) returns (st: Status)
      requires Valid()
      modifies this`operations
      ensures Valid()
      ensures Performed(MissTokenOp(needles, dir, bedNeedle, CarrierArg(c)), needles, old(operations), st)
    {
      var p := ParseBedNeedle(bedNeedle);
      if p.Failure? {
        return Failed(p.error);
      }
      st := Miss(dir, p.value.bed, p.value.needle, c);
    }

    /** `miss(dir, bedNeedle, cs)`. */
    method MissAtList(dir: string, bedNeedle: string, cs: seq<string>) returns (st: Status)
      requires Valid()
      modifies this`operations
      ensures Valid()
      ensures Performed(MissTokenOp(needles, dir, bedNeedle, cs), needles, old(operations), st)
    {
      var p := ParseBedNeedle(bedNeedle);
      if p.Failure? {
        return Failed(p.error);
      }
      st := MissList(dir, p.value.bed, p.value.needle, cs);
    }

    /** `drop(bed, needle)`: the needle's loops are gone. */
    method Drop(bed: string, needle: int32) returns (st: Status)
      requires Valid()
      modifies this`needles, this`operations
      ensures Valid()
      ensures Performed(DropOp(old(needles), bed, needle), old(needles), old(operations), st)
    {
      if !ValidBed(bed) {
        return Failed(InvalidBed);
      }
      if needle < 0 {
        return Failed(InvalidNeedle);
      }
      var key := KeyOf(bed, needle);
      needles := needles - {key};
      assert "drop" + " " == "drop ";
      operations := operations + ["drop " + bed + IntToString(needle as int)];
      st := Done;
    }

    /** `drop(bedNeedle)`. */
    method DropAt(bedNeedle: string) returns (st: Status)
      requires Valid()
      modifies this`needles, this`operations
      ensures Valid()
      ensures Performed(DropTokenOp(old(needles), bedNeedle), old(needles), old(operations), st)
    {
      var p := ParseBedNeedle(bedNeedle);
      if p.Failure? {
        return Failed(p.error);
      }
      st := Drop(p.value.bed, p.value.needle);
    }

    /** `amiss(bed, needle)`: no loop is recorded. */
    method Amiss(bed: string, needle: int32) returns (st: Status)
      requires Valid()
      modifies this`operations
      ensures Valid()
      ensures Performed(AmissOp(needles, bed, needle), needles, old(operations), st)
    {
      if !ValidBed(bed) {
        return Failed(InvalidBed);
      }
      if needle < 0 {
        return Failed(InvalidNeedle);
      }
      assert "amiss" + " " == "amiss ";
      operations := operations + ["amiss " + bed + IntToString(needle as int)];
      st := Done;
    }

    /** `amiss(bedNeedle)`. */
    method AmissAt(bedNeedle: string) returns (st: Status)
      requires Valid()
      modifies this`operations
      ensures Valid()
      ensures Performed(AmissTokenOp(needles, bedNeedle), needles, old(operations), st)
    {
      var p := ParseBedNeedle(bedNeedle);
      if p.Failure? {
        return Failed(p.error);
      }
      st := Amiss(p.value.bed, p.value.needle);
    }

    /** `xfer(fromBed, fromNeedle, toBed, toNeedle)`. */
    method Xfer(fromBed: string, fromNeedle: int32, toBed: string, toNeedle: int32) returns (st: Status)
      requires Valid()
      modifies this`needles, this`operations
      ensures Valid()
      ensures Performed(XferOp(old(needles), fromBed, fromNeedle, toBed, toNeedle), old(needles), old(operations), st)
    {
      if !ValidBed(fromBed) {
        return Failed(InvalidBed);
      }
      if fromNeedle < 0 {
        return Failed(InvalidNeedle);
      }
      if !ValidBed(toBed) {
        return Failed(InvalidBed);
      }
      if toNeedle < 0 {
        return Failed(InvalidNeedle);
      }
      MoveLoops(fromBed, fromNeedle, toBed, toNeedle);
      operations := operations + [XferLine(fromBed, fromNeedle, toBed, toNeedle)];
      st := Done;
    }

    /** `xfer(fromBedNeedle, toBedNeedle)`. */
    method XferAt(fromBedNeedle: string, toBedNeedle: string) returns (st: Status)
      requires Valid()
      modifies this`needles, this`operations
      ensures Valid()
      ensures Performed(XferTokenOp(old(needles), fromBedNeedle, toBedNeedle), old(needles), old(operations), st)
    {
      var f := ParseBedNeedle(fromBedNeedle);
      if f.Failure? {
        return Failed(f.error);
      }
      var t := ParseBedNeedle(toBedNeedle);
      if t.Failure? {
        return Failed(t.error);
      }
      st := Xfer(f.value.bed, f.value.needle, t.value.bed, t.value.needle);
    }

    /** The loop move shared by split and xfer: if the source holds loops,
        the target is inserted and the source erased. */
    method MoveLoops(fromBed: string, fromNeedle: int32, toBed: string, toNeedle: int32)
      requires Valid()
      requires ValidBed(fromBed) && fromNeedle >= 0 && ValidBed(toBed) && toNeedle >= 0
      modifies this`needles
      ensures Valid()
      ensures needles == Transfer(old(needles), Token(fromBed, fromNeedle), Token(toBed, toNeedle))
    {
      var from := KeyOf(fromBed, fromNeedle);
      if from in needles {
        var to := KeyOf(toBed, toNeedle);
        TokenIsKey(toBed, toNeedle);
        needles := needles + {to};
        needles := needles - {from};
      }
    }
    // -------------------------------------------------------------------------
    // Comments, pauses and the remaining lines

    /** `comment(str)`: one comment line per line of `str`, each written as
        ';' and the line without its leading semicolons. */
    method Comment(str: string)
      modifies this`operations
      ensures operations == old(operations) + CommentLines(str)
    {
      var subs := Text.Split(str, '\n');
      var i := 0;
      while i < |subs|
        invariant 0 <= i <= |subs|
        invariant operations == old(operations) + CommentLinesOf(subs[..i])
      {
        var s := subs[i];
        var cntr := LeadingSemicolons(s);
        var line := ";" + s[cntr..];
        assert line == CommentLine(s);
        CommentLinesOfPrefix(subs, i);
        Assoc(old(operations), CommentLinesOf(subs[..i]), [line]);
        operations := operations + [line];
        i := i + 1;
      }
      assert subs[..i] == subs;
    }

    /** `pause(comment)`: the comment, then a `pause` line. */
    method Pause(comment: string)
      modifies this`operations
      ensures operations == old(operations) + CommentLines(comment) + ["pause"]
    {
      Comment(comment);
      operations := operations + ["pause"];
    }

    /** `addRawOperation(operation)`: the line is added as given, unchecked. */
    method AddRawOperation(operation: string)
      modifies this`operations
      ensures operations == old(operations) + [operation]
    {
      operations := operations + [operation];
    }

    /** `stitch(before, after)`: both values are written, unchecked. */
    method Stitch(before: int32, after: int32)
      modifies this`operations
      ensures operations == old(operations) + ["stitch " + IntToString(before as int) + " " + IntToString(after as int)]
    {
      operations := operations + ["stitch " + IntToString(before as int) + " " + IntToString(after as int)];
    }

    /** `stitchNumber(n)`: negative numbers are refused. */
    method StitchNumber(stitchNumber: int32) returns (st: Status)
      modifies this`operations
      ensures st.Failed? <==> stitchNumber < 0
      ensures st.Failed? ==> st.error == NegativeStitchNumber && operations == old(operations)
      ensures st.Done? ==> operations == old(operations) + ["x-stitch-number " + IntToString(stitchNumber as int)]
    {
      if stitchNumber < 0 {
        return Failed(NegativeStitchNumber);
      }
      operations := operations + ["x-stitch-number " + IntToString(stitchNumber as int)];
      st := Done;
    }

    /** `fabricPresser(mode)`: only `auto`, `on` and `off` are written; any
        other mode is ignored with a warning. */
    method FabricPresser(presserMode: string)
      modifies this`operations
      ensures presserMode in PresserModes ==> operations == old(operations) + ["x-presser-mode " + presserMode]
      ensures presserMode !in PresserModes ==> operations == old(operations)
    {
      if presserMode == "auto" {
        assert "x-presser-mode " + presserMode == "x-presser-mode auto";
        operations := operations + ["x-presser-mode auto"];
      } else if presserMode == "on" {
        assert "x-presser-mode " + presserMode == "x-presser-mode on";
        operations := operations + ["x-presser-mode on"];
      } else if presserMode == "off" {
        assert "x-presser-mode " + presserMode == "x-presser-mode off";
        operations := operations + ["x-presser-mode off"];
      }
    }

    /** `speedNumber(value)`: a non-negative value writes the extension name
        only, without the value; a negative one is ignored. */
    method SpeedNumber(value: int32)
      modifies this`operations
      ensures value >= 0 ==> operations == old(operations) + ["x-speed-number "]
      ensures value < 0 ==> operations == old(operations)
    {
      if value >= 0 {
        operations := operations + ["x-speed-number "];
      }
    }

    /** `rollerAdvance(value)`: writes a speed-number line carrying the value,
        then the roller-advance line. */
    method RollerAdvance(value: int32)
      modifies this`operations
      ensures operations == old(operations) +
        ["x-speed-number " + IntToString(value as int), "x-roller-advance " + IntToString(value as int)]
    {
      operations := operations + ["x-speed-number " + IntToString(value as int)];
      operations := operations + ["x-roller-advance " + IntToString(value as int)];
    }

    /** `addRollerAdvance(value)`: written unchecked. */
    method AddRollerAdvance(value: int32)
      modifies this`operations
      ensures operations == old(operations) + ["x-add-roller-advance " + IntToString(value as int)]
    {
      operations := operations + ["x-add-roller-advance " + IntToString(value as int)];
    }

    /** `carrierSpacing(value)`: only positive values are written. */
    method CarrierSpacing(value: int32)
      modifies this`operations
      ensures value > 0 ==> operations == old(operations) + ["x-carrier-spacing " + IntToString(value as int)]
      ensures value <= 0 ==> operations == old(operations)
    {
      if value <= 0 {
        return;
      }
      operations := operations + ["x-carrier-spacing " + IntToString(value as int)];
    }

    /** `carrierStoppingDistance(value)`: only positive values are written. */
    method CarrierStoppingDistance(value: int32)
      modifies this`operations
      ensures value > 0 ==> operations == old(operations) + ["x-carrier-stopping-distance " + IntToString(value as int)]
      ensures value <= 0 ==> operations == old(operations)
    {
      if value <= 0 {
        return;
      }
      operations := operations + ["x-carrier-stopping-distance " + IntToString(value as int)];
    }
  }
}
