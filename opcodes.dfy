/** The needle operations knit, tuck, split, miss, drop, amiss and xfer as
    functions of the set of needles holding loops: the checks each runs, in
    the writer's order, the new set of loaded needles, and the knitout line
    it adds. A check that fails stops the operation before anything changes.
    The writer keys loaded needles by `makeKey(bed, needle)`; an operation
    only touches the set once the bed is valid, and for a valid bed that key
    is the token `Token(bed, needle)` written on the line (`KeyIsToken`), so
    the effects below are stated with the token, and `KnitUsesMakeKey`,
    `TuckUsesMakeKey` and `DropUsesMakeKey` restate them with `makeKey`. */
module Opcodes {
  import opened Errors
  import opened Text
  import opened BedNeedle

  /** `Writer::CarrierDelimiters`: carrier sets may be written with spaces or commas. */
  const CarrierDelimiters: string := " ,"

  /** What a needle operation that passed its checks does: the new set of
      loaded needles and the line it appends to the operations. */
  datatype Effect = Effect(needles: set<string>, line: string)

  // ---------------------------------------------------------------------------
  // Carrier arguments

  /** `validateCarrier(trim_copy(c))` passes for every name: it only refuses
      a name that trims to nothing (an unknown name is a warning). */
  predicate AllNamed(cs: seq<string>)
  {
    forall i :: 0 <= i < |cs| ==> Trim(cs[i]) != ""
  }

  function NamesStatus(cs: seq<string>): Status
  {
    if AllNamed(cs) then Done else Failed(MissingCarrierName)
  }

  /** The `for( auto c : cs ) validateCarrier( trim_copy( c ) )` loop. */
  method ValidateCarriers(cs: seq<string>) returns (st: Status)
    ensures st == NamesStatus(cs)
    ensures st.Failed? ==> exists i :: 0 <= i < |cs| && Trim(cs[i]) == ""
  {
    var i := 0;
    while i < |cs|
      invariant 0 <= i <= |cs|
      invariant forall k :: 0 <= k < i ==> Trim(cs[k]) != ""
    {
      if Trim(cs[i]) == "" {
        return Failed(MissingCarrierName);
      }
      i := i + 1;
    }
    return Done;
  }

  /** `c.find_first_of( CarrierDelimiters ) != npos`. */
  predicate HasDelimiter(c: string)
  {
    !NoneOf(c, CarrierDelimiters)
  }

  /** The carriers a single-string argument stands for. A string holding a
      delimiter is split with `splitAny` and handed to the list form; any
      other string is handled in place, where `""` means "no carrier" and a
      non-empty string is one carrier written as given. The list form on
      this list checks and writes exactly what the in-place code does. */
  function CarrierArg(c: string): (r: seq<string>)
    ensures HasDelimiter(c) ==> forall i :: 0 <= i < |r| ==> r[i] != "" && !HasDelimiter(r[i])
    ensures !HasDelimiter(c) ==>
      (r == [] <==> c == "") &&
      (AllNamed(r) <==> c == "" || Trim(c) != "") &&
      Join(r, " ") == c
  {
    if HasDelimiter(c) then Tokens(c, CarrierDelimiters)
    else if c == "" then []
    else assert [c][0] == c; [c]
  }

  /** A non-empty string made only of spaces and commas, such as `" , "`,
      stands for no carrier at all. */
  lemma OnlyDelimitersIsNoCarrier(c: string)
    requires c != [] && forall i :: 0 <= i < |c| ==> c[i] in CarrierDelimiters
    ensures HasDelimiter(c)
    ensures CarrierArg(c) == []
  {
    assert c[0] in CarrierDelimiters;
    TokensOfDelimiters(c, CarrierDelimiters);
  }

  // ---------------------------------------------------------------------------
  // Checks and effects

  /** `validateBed` then `validateNeedle`. */
  function PlaceStatus(bed: string, needle: int32): Status
  {
    AndThen(BedStatus(bed), NeedleStatus(needle))
  }

  /** The operation's outcome once its checks have run. */
  function Checked(st: Status, e: Effect): Result<Effect>
  {
    if st.Failed? then Failure(st.error) else Success(e)
  }

  /** The loop move of split and xfer: when `from` holds loops they go to
      `to` and `from` is emptied; otherwise nothing moves. */
  function Transfer(needles: set<string>, from: string, to: string): (r: set<string>)
    ensures from !in r
    ensures to != from ==> (to in r <==> to in needles || from in needles)
    ensures forall k :: k != from && k != to ==> (k in r <==> k in needles)
  {
    if from in needles then needles + {to} - {from} else needles
  }

  /** The line of knit, tuck and miss: opcode, direction, bed+needle token
      and the carriers joined with single spaces, after one more space. */
  function NeedleLine(opcode: string, dir: string, bed: string, needle: int32, cs: seq<string>): string
  {
    opcode + " " + dir + " " + bed + IntToString(needle as int) + " " + Join(cs, " ")
  }

  /** The line of split: both tokens in place of one. */
  function SplitLine(dir: string, fromBed: string, fromNeedle: int32, toBed: string, toNeedle: int32, cs: seq<string>): string
  {
    "split " + dir + " " + fromBed + IntToString(fromNeedle as int) + " " +
    toBed + IntToString(toNeedle as int) + " " + Join(cs, " ")
  }

  /** The line of drop and amiss: opcode and token. */
  function PlaceLine(opcode: string, bed: string, needle: int32): string
  {
    opcode + " " + bed + IntToString(needle as int)
  }

  /** The line of xfer: opcode and both tokens. */
  function XferLine(fromBed: string, fromNeedle: int32, toBed: string, toNeedle: int32): string
  {
    "xfer " + fromBed + IntToString(fromNeedle as int) + " " + toBed + IntToString(toNeedle as int)
  }

  /** `knit(dir, bed, needle, cs)`: with carriers the needle holds a new
      loop, without carriers its loops are knitted off. */
  function KnitOp(needles: set<string>, dir: string, bed: string, needle: int32, cs: seq<string>): (r: Result<Effect>)
    ensures r.Success? <==> ValidDirection(dir) && ValidBed(bed) && needle >= 0 && AllNamed(cs)
    ensures !ValidDirection(dir) ==> r == Failure(InvalidDirection)
    ensures ValidDirection(dir) && !ValidBed(bed) ==> r == Failure(InvalidBed)
    ensures r.Success? ==>
      r.value.needles == if cs == [] then needles - {Token(bed, needle)} else needles + {Token(bed, needle)}
  {
    var key := Token(bed, needle);
    Checked(AndThen(DirectionStatus(dir), AndThen(PlaceStatus(bed, needle), NamesStatus(cs))),
            Effect(if cs != [] then needles + {key} else needles - {key},
                   NeedleLine("knit", dir, bed, needle, cs)))
  }

  /** `tuck(dir, bed, needle, cs)`: the needle holds a loop afterwards,
      with or without carriers. */
  function TuckOp(needles: set<string>, dir: string, bed: string, needle: int32, cs: seq<string>): (r: Result<Effect>)
    ensures r.Success? <==> ValidDirection(dir) && ValidBed(bed) && needle >= 0 && AllNamed(cs)
    ensures !ValidDirection(dir) ==> r == Failure(InvalidDirection)
    ensures r.Success? ==> r.value.needles == needles + {Token(bed, needle)}
  {
    var key := Token(bed, needle);
    Checked(AndThen(DirectionStatus(dir), AndThen(PlaceStatus(bed, needle), NamesStatus(cs))),
            Effect(needles + {key},
                   NeedleLine("tuck", dir, bed, needle, cs)))
  }

  /** `split(dir, fromBed, fromNeedle, toBed, toNeedle, cs)`: the loops of
      the source move to the target, and with carriers the source holds a
      new loop. The same-bed check runs after the carrier check. */
  function SplitOp(needles: set<string>, dir: string, fromBed: string, fromNeedle: int32,
                   toBed: string, toNeedle: int32, cs: seq<string>): (r: Result<Effect>)
    ensures r.Success? <==>
      ValidDirection(dir) && ValidBed(fromBed) && fromNeedle >= 0 && ValidBed(toBed) && toNeedle >= 0 &&
      AllNamed(cs) && fromBed != toBed
    ensures r == Failure(SameBedSplit) ==> AllNamed(cs) && fromBed == toBed
    ensures (ValidDirection(dir) && ValidBed(fromBed) && fromNeedle >= 0 && ValidBed(toBed) && toNeedle >= 0 &&
             AllNamed(cs) && fromBed == toBed) ==> r == Failure(SameBedSplit)
    ensures r.Success? ==>
      var from, to := Token(fromBed, fromNeedle), Token(toBed, toNeedle);
      from != to &&
      (from in r.value.needles <==> cs != []) &&
      (to in r.value.needles <==> to in needles || from in needles) &&
      (forall k :: k != from && k != to ==> (k in r.value.needles <==> k in needles))
  {
    var from, to := Token(fromBed, fromNeedle), Token(toBed, toNeedle);
    var st := AndThen(DirectionStatus(dir),
              AndThen(PlaceStatus(fromBed, fromNeedle),
              AndThen(PlaceStatus(toBed, toNeedle),
              AndThen(NamesStatus(cs),
                      if fromBed == toBed then Failed(SameBedSplit) else Done))));
    var moved := Transfer(needles, from, to);
    if st.Done? then
      TokenInjective(fromBed, fromNeedle, toBed, toNeedle);
      Checked(st, Effect(if cs != [] then moved + {from} else moved,
                         SplitLine(dir, fromBed, fromNeedle, toBed, toNeedle, cs)))
    else Failure(st.error)
  }

  /** `miss(dir, bed, needle, cs)`: moves carriers past a needle; it needs
      at least one carrier and leaves the loops alone. */
  function MissOp(needles: set<string>, dir: string, bed: string, needle: int32, cs: seq<string>): (r: Result<Effect>)
    ensures r.Success? <==> ValidDirection(dir) && ValidBed(bed) && needle >= 0 && cs != [] && AllNamed(cs)
    ensures ValidDirection(dir) && ValidBed(bed) && needle >= 0 && cs == [] ==> r == Failure(NoCarriersForMiss)
    ensures r.Success? ==> r.value.needles == needles
  {
    Checked(AndThen(DirectionStatus(dir), AndThen(PlaceStatus(bed, needle),
              AndThen(if cs == [] then Failed(NoCarriersForMiss) else Done, NamesStatus(cs)))),
            Effect(needles, NeedleLine("miss", dir, bed, needle, cs)))
  }

  /** `drop(bed, needle)`: the needle's loops are dropped. */
  function DropOp(needles: set<string>, bed: string, needle: int32): (r: Result<Effect>)
    ensures r.Success? <==> ValidBed(bed) && needle >= 0
    ensures r.Success? ==> r.value.needles == needles - {Token(bed, needle)}
  {
    var key := Token(bed, needle);
    Checked(PlaceStatus(bed, needle), Effect(needles - {key}, PlaceLine("drop", bed, needle)))
  }

  /** `amiss(bed, needle)`: a tuck without yarn, which the writer does not
      record as a loop. */
  function AmissOp(needles: set<string>, bed: string, needle: int32): (r: Result<Effect>)
    ensures r.Success? <==> ValidBed(bed) && needle >= 0
    ensures r.Success? ==> r.value.needles == needles
  {
    Checked(PlaceStatus(bed, needle), Effect(needles, PlaceLine("amiss", bed, needle)))
  }

  /** `xfer(fromBed, fromNeedle, toBed, toNeedle)`: the loop move of split,
      with no carriers and no same-bed check. */
  function XferOp(needles: set<string>, fromBed: string, fromNeedle: int32, toBed: string, toNeedle: int32): (r: Result<Effect>)
    ensures r.Success? <==> ValidBed(fromBed) && fromNeedle >= 0 && ValidBed(toBed) && toNeedle >= 0
    ensures r.Success? ==> r.value.needles == Transfer(needles, Token(fromBed, fromNeedle), Token(toBed, toNeedle))
  {
    var from, to := Token(fromBed, fromNeedle), Token(toBed, toNeedle);
    Checked(AndThen(PlaceStatus(fromBed, fromNeedle), PlaceStatus(toBed, toNeedle)),
            Effect(Transfer(needles, from, to),
                   XferLine(fromBed, fromNeedle, toBed, toNeedle)))
  }

  /** The effect of knit stated with the writer's own key function. */
  lemma KnitUsesMakeKey(needles: set<string>, dir: string, bed: string, needle: int32, cs: seq<string>)
    ensures KnitOp(needles, dir, bed, needle, cs).Success? ==>
      KnitOp(needles, dir, bed, needle, cs).value.needles ==
        if cs == [] then needles - {MakeKey(bed, needle)} else needles + {MakeKey(bed, needle)}
  {
    var r := KnitOp(needles, dir, bed, needle, cs);
    if r.Success? {
      var k := MakeKey(bed, needle);
      assert k == Token(bed, needle) by { KeyIsToken(bed, needle); }
      if cs == [] {
        assert r.value.needles == needles - {k};
      } else {
        assert r.value.needles == needles + {k};
      }
    }
  }

  /** The effect of tuck stated with the writer's own key function. */
  lemma TuckUsesMakeKey(needles: set<string>, dir: string, bed: string, needle: int32, cs: seq<string>)
    ensures TuckOp(needles, dir, bed, needle, cs).Success? ==>
      TuckOp(needles, dir, bed, needle, cs).value.needles == needles + {MakeKey(bed, needle)}
  {
    if TuckOp(needles, dir, bed, needle, cs).Success? {
      KeyIsToken(bed, needle);
    }
  }

  /** The effect of drop stated with the writer's own key function. */
  lemma DropUsesMakeKey(needles: set<string>, bed: string, needle: int32)
    ensures DropOp(needles, bed, needle).Success? ==>
      DropOp(needles, bed, needle).value.needles == needles - {MakeKey(bed, needle)}
  {
    if ValidBed(bed) {
      KeyIsToken(bed, needle);
    }
  }

  /** A transfer of a needle onto itself empties it: the target is inserted
      and then erased as the source. */
  lemma XferOntoItselfEmpties(needles: set<string>, bed: string, needle: int32)
    requires ValidBed(bed) && needle >= 0
    ensures XferOp(needles, bed, needle, bed, needle).Success?
    ensures Token(bed, needle) !in XferOp(needles, bed, needle, bed, needle).value.needles
  {
  }

  // ---------------------------------------------------------------------------
  // The bed+needle token overloads: parse first, then the operation

  function KnitTokenOp(needles: set<string>, dir: string, token: string, cs: seq<string>): Result<Effect>
  {
    match Parse(token)
    case Failure(e) => Failure(e)
    case Success(p) => KnitOp(needles, dir, p.bed, p.needle, cs)
  }

  function TuckTokenOp(needles: set<string>, dir: string, token: string, cs: seq<string>): Result<Effect>
  {
    match Parse(token)
    case Failure(e) => Failure(e)
    case Success(p) => TuckOp(needles, dir, p.bed, p.needle, cs)
  }

  function MissTokenOp(needles: set<string>, dir: string, token: string, cs: seq<string>): Result<Effect>
  {
    match Parse(token)
    case Failure(e) => Failure(e)
    case Success(p) => MissOp(needles, dir, p.bed, p.needle, cs)
  }

  function DropTokenOp(needles: set<string>, token: string): Result<Effect>
  {
    match Parse(token)
    case Failure(e) => Failure(e)
    case Success(p) => DropOp(needles, p.bed, p.needle)
  }

  function AmissTokenOp(needles: set<string>, token: string): Result<Effect>
  {
    match Parse(token)
    case Failure(e) => Failure(e)
    case Success(p) => AmissOp(needles, p.bed, p.needle)
  }

  /** Both tokens are parsed, the source first, before any other check. */
  function SplitTokenOp(needles: set<string>, dir: string, fromToken: string, toToken: string, cs: seq<string>): Result<Effect>
  {
    match Parse(fromToken)
    case Failure(e) => Failure(e)
    case Success(f) =>
      match Parse(toToken)
      case Failure(e) => Failure(e)
      case Success(t) => SplitOp(needles, dir, f.bed, f.needle, t.bed, t.needle, cs)
  }

  function XferTokenOp(needles: set<string>, fromToken: string, toToken: string): Result<Effect>
  {
    match Parse(fromToken)
    case Failure(e) => Failure(e)
    case Success(f) =>
      match Parse(toToken)
      case Failure(e) => Failure(e)
      case Success(t) => XferOp(needles, f.bed, f.needle, t.bed, t.needle)
  }

  /** On the tokens the writer itself prints, the token overloads of knit,
      tuck and miss do exactly what the bed-and-needle overloads do. */
  lemma NeedleTokenFormsAgree(needles: set<string>, dir: string, bed: string, needle: int32, cs: seq<string>)
    requires ValidBed(bed) && needle >= 0
    ensures KnitTokenOp(needles, dir, Token(bed, needle), cs) == KnitOp(needles, dir, bed, needle, cs)
    ensures TuckTokenOp(needles, dir, Token(bed, needle), cs) == TuckOp(needles, dir, bed, needle, cs)
    ensures MissTokenOp(needles, dir, Token(bed, needle), cs) == MissOp(needles, dir, bed, needle, cs)
  {
    ParseToken(bed, needle);
  }

  /** The same for drop and amiss. */
  lemma PlaceTokenFormsAgree(needles: set<string>, bed: string, needle: int32)
    requires ValidBed(bed) && needle >= 0
    ensures DropTokenOp(needles, Token(bed, needle)) == DropOp(needles, bed, needle)
    ensures AmissTokenOp(needles, Token(bed, needle)) == AmissOp(needles, bed, needle)
  {
    ParseToken(bed, needle);
  }

  /** The same for split and xfer, which take two tokens. */
  lemma PairTokenFormsAgree(needles: set<string>, dir: string, fromBed: string, fromNeedle: int32,
                            toBed: string, toNeedle: int32, cs: seq<string>)
    requires ValidBed(fromBed) && fromNeedle >= 0 && ValidBed(toBed) && toNeedle >= 0
    ensures SplitTokenOp(needles, dir, Token(fromBed, fromNeedle), Token(toBed, toNeedle), cs)
         == SplitOp(needles, dir, fromBed, fromNeedle, toBed, toNeedle, cs)
    ensures XferTokenOp(needles, Token(fromBed, fromNeedle), Token(toBed, toNeedle))
         == XferOp(needles, fromBed, fromNeedle, toBed, toNeedle)
  {
    ParseToken(fromBed, fromNeedle);
    ParseToken(toBed, toNeedle);
  }

  /** A malformed token is reported before the direction is looked at. */
  lemma TokenCheckedFirst(needles: set<string>, dir: string, token: string, cs: seq<string>)
    requires Parse(token).Failure?
    ensures KnitTokenOp(needles, dir, token, cs) == Failure(Parse(token).error)
    ensures TuckTokenOp(needles, dir, token, cs) == Failure(Parse(token).error)
    ensures MissTokenOp(needles, dir, token, cs) == Failure(Parse(token).error)
  {
  }

  // ---------------------------------------------------------------------------
  // Reading the lines back

  /** A word survives `splitAny` intact: it is non-empty and has no delimiter. */
  predicate IsWord(w: string)
  {
    w != [] && !HasDelimiter(w)
  }

  /** Each direction is one word. */
  lemma DirectionIsWord(dir: string)
    requires ValidDirection(dir)
    ensures IsWord(dir)
  {
  }

  predicate AllWords(ws: seq<string>)
  {
    forall i :: 0 <= i < |ws| ==> IsWord(ws[i])
  }

  /** Words joined with single spaces, a space, and more words joined with
      single spaces split back into all the words, even when the second
      list is empty and the line ends in a space. */
  lemma LineWords(line: string, head: seq<string>, cs: seq<string>)
    requires head != [] && AllWords(head) && AllWords(cs)
    requires line == Join(head, " ") + " " + Join(cs, " ")
    ensures Tokens(line, CarrierDelimiters) == head + cs
  {
    if cs == [] {
      assert line == Join(head, " ") + " ";
      SplitAnyOfJoin(head, " ", " ");
      assert head + cs == head;
    } else {
      JoinAppend(head, cs, " ");
      assert line == Join(head + cs, " ") + "";
      SplitAnyOfJoin(head + cs, " ", "");
    }
  }

  /** The token of a valid place is a word. */
  lemma TokenIsWord(bed: string, needle: int32)
    requires ValidBed(bed) && needle >= 0
    ensures IsWord(Token(bed, needle))
  {
    ValidBedChars(bed);
    var t := Token(bed, needle);
    var digits := NatToString(needle as int);
    assert t == bed + digits;
    forall i | 0 <= i < |t| ensures t[i] !in CarrierDelimiters {
      if i >= |bed| { assert t[i] == digits[i - |bed|]; }
    }
  }

  /** Two words joined with a single space. */
  lemma JoinTwo(a: string, b: string)
    ensures Join([a, b], " ") == a + " " + b
  {
    assert [a, b][1..] == [b];
  }

  /** Three words joined with single spaces. */
  lemma JoinThree(a: string, b: string, c: string)
    ensures Join([a, b, c], " ") == a + " " + b + " " + c
  {
    assert [a, b, c][1..] == [b, c];
    JoinTwo(b, c);
    var bc := b + " " + c;
    assert Join([a, b, c], " ") == a + " " + bc;
    assert a + " " + bc == a + " " + b + " " + c;
  }

  /** Four words joined with single spaces. */
  lemma JoinFour(a: string, b: string, c: string, d: string)
    ensures Join([a, b, c, d], " ") == a + " " + b + " " + c + " " + d
  {
    assert [a, b, c, d][1..] == [b, c, d];
    JoinThree(b, c, d);
    var bcd := b + " " + c + " " + d;
    assert Join([a, b, c, d], " ") == a + " " + bcd;
    assert a + " " + bcd == a + " " + b + " " + c + " " + d;
  }

  /** The line of a knit, tuck or miss reads back as its opcode, direction,
      bed+needle token (which `ParseToken` reads back) and carriers. */
  lemma NeedleLineReadsBack(opcode: string, dir: string, bed: string, needle: int32, cs: seq<string>)
    requires IsWord(opcode) && ValidDirection(dir) && ValidBed(bed) && needle >= 0 && AllWords(cs)
    ensures Tokens(NeedleLine(opcode, dir, bed, needle, cs), CarrierDelimiters) == [opcode, dir, Token(bed, needle)] + cs
  {
    var line := NeedleLine(opcode, dir, bed, needle, cs);
    var t := Token(bed, needle);
    TokenIsWord(bed, needle);
    JoinThree(opcode, dir, t);
    var head := opcode + " " + dir + " ";
    assert line == Join([opcode, dir, t], " ") + " " + Join(cs, " ") by {
      assert line == head + bed + IntToString(needle as int) + " " + Join(cs, " ");
      assert head + bed + IntToString(needle as int) == head + t;
    }
    DirectionIsWord(dir);
    LineWords(line, [opcode, dir, t], cs);
  }

  /** The line of a split reads back as "split", its direction, both tokens
      and its carriers. */
  lemma SplitLineReadsBack(dir: string, fromBed: string, fromNeedle: int32, toBed: string, toNeedle: int32, cs: seq<string>)
    requires ValidDirection(dir) && ValidBed(fromBed) && fromNeedle >= 0 && ValidBed(toBed) && toNeedle >= 0
    requires AllWords(cs)
    ensures Tokens(SplitLine(dir, fromBed, fromNeedle, toBed, toNeedle, cs), CarrierDelimiters)
         == ["split", dir, Token(fromBed, fromNeedle), Token(toBed, toNeedle)] + cs
  {
    var f, t := Token(fromBed, fromNeedle), Token(toBed, toNeedle);
    TokenIsWord(fromBed, fromNeedle);
    TokenIsWord(toBed, toNeedle);
    SplitLineIsJoin(dir, fromBed, fromNeedle, toBed, toNeedle, cs);
    assert IsWord("split") by {
      assert "split"[0] !in CarrierDelimiters;
    }
    DirectionIsWord(dir);
    LineWords(SplitLine(dir, fromBed, fromNeedle, toBed, toNeedle, cs), ["split", dir, f, t], cs);
  }

  /** The read-back needs single-word carrier names: the list forms accept a
      name holding a space, such as `"A B"`, and its line `knit + f10 A B`
      splits into two carrier words. */
  lemma SpacedCarrierReadsApart()
    ensures Tokens(NeedleLine("knit", "+", "f", 10, ["A B"]), CarrierDelimiters)
         == ["knit", "+", "f10", "A", "B"]
  {
    assert NeedleLine("knit", "+", "f", 10, ["A B"]) == NeedleLine("knit", "+", "f", 10, ["A", "B"]) by {
      assert Join(["A B"], " ") == "A B" == Join(["A", "B"], " ");
    }
    assert IsWord("knit") by {
      assert forall i :: 0 <= i < 4 ==> "knit"[i] !in CarrierDelimiters;
    }
    assert AllWords(["A", "B"]);
    assert Token("f", 10) == "f10" by {
      assert IntToString(10) == "10";
    }
    NeedleLineReadsBack("knit", "+", "f", 10, ["A", "B"]);
  }

  /** A split line is its four leading words and its carriers, each joined
      by single spaces. */
  lemma SplitLineIsJoin(dir: string, fromBed: string, fromNeedle: int32, toBed: string, toNeedle: int32, cs: seq<string>)
    ensures SplitLine(dir, fromBed, fromNeedle, toBed, toNeedle, cs)
         == Join(["split", dir, Token(fromBed, fromNeedle), Token(toBed, toNeedle)], " ") + " " + Join(cs, " ")
  {
    var from, to := IntToString(fromNeedle as int), IntToString(toNeedle as int);
    var f, t := fromBed + from, toBed + to;
    JoinFour("split", dir, f, t);
    var head := "split " + dir + " ";
    assert "split" + " " == "split ";
    Assoc(head, fromBed, from);
    var middle := head + f + " ";
    Assoc(middle, toBed, to);
  }

  /** The line of a drop or amiss reads back as its opcode and token. */
  lemma PlaceLineReadsBack(opcode: string, bed: string, needle: int32)
    requires IsWord(opcode) && ValidBed(bed) && needle >= 0
    ensures Tokens(PlaceLine(opcode, bed, needle), CarrierDelimiters) == [opcode, Token(bed, needle)]
  {
    var t := Token(bed, needle);
    TokenIsWord(bed, needle);
    JoinTwo(opcode, t);
    assert PlaceLine(opcode, bed, needle) == Join([opcode, t], " ") + "";
    SplitAnyOfJoin([opcode, t], " ", "");
  }

  /** The line of an xfer reads back as "xfer" and both tokens. */
  lemma XferLineReadsBack(fromBed: string, fromNeedle: int32, toBed: string, toNeedle: int32)
    requires ValidBed(fromBed) && fromNeedle >= 0 && ValidBed(toBed) && toNeedle >= 0
    ensures Tokens(XferLine(fromBed, fromNeedle, toBed, toNeedle), CarrierDelimiters)
         == ["xfer", Token(fromBed, fromNeedle), Token(toBed, toNeedle)]
  {
    var line := XferLine(fromBed, fromNeedle, toBed, toNeedle);
    var f, t := Token(fromBed, fromNeedle), Token(toBed, toNeedle);
    TokenIsWord(fromBed, fromNeedle);
    TokenIsWord(toBed, toNeedle);
    assert IsWord("xfer");
    JoinThree("xfer", f, t);
    assert line == Join(["xfer", f, t], " ") + "" by {
      assert "xfer " == "xfer" + " ";
      assert line == "xfer " + fromBed + IntToString(fromNeedle as int) + " " + toBed + IntToString(toNeedle as int);
      assert "xfer " + fromBed + IntToString(fromNeedle as int) == "xfer " + f;
    }
    SplitAnyOfJoin(["xfer", f, t], " ", "");
  }
}
