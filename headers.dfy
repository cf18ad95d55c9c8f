/** The header section of a knitout file: `;;Name: value` lines, the
    `Carriers` header the writer builds itself, and the checks `addHeader`
    runs before it queues a header. */
module Headers {
  import opened Errors
  import opened Text

  /** `Writer::SupportedPositions`, compared case-sensitively. */
  const SupportedPositions: seq<string> := ["Left", "Center", "Right", "Keep"]

  datatype Header = Header(name: string, value: string)

  datatype Option<T> = None | Some(value: T)

  /** The line `addHeader` queues: `";;" + name + ": " + value`. */
  function HeaderLine(h: Header): string
  {
    ";;" + h.name + ": " + h.value
  }

  /** The header the constructor builds from the carrier names. */
  function CarriersHeader(carriers: seq<string>): string
  {
    HeaderLine(Header("Carriers", Join(carriers, " ")))
  }

  /** The loop over `SupportedPositions` in `addHeader`: `value.compare`
      is an exact, case-sensitive comparison. */
  method IsSupportedPosition(value: string) returns (found: bool)
    ensures found <==> value in SupportedPositions
  {
    found := false;
    var i := 0;
    while i < |SupportedPositions|
      invariant 0 <= i <= |SupportedPositions|
      invariant found <==> value in SupportedPositions[..i]
    {
      if value == SupportedPositions[i] {
        found := true;
      }
      i := i + 1;
    }
    assert SupportedPositions[..i] == SupportedPositions;
  }

  /** What `addHeader` demands of a header, independent of the order in
      which it checks: no ": " in the name, no line feed in the value, never
      `Carriers`, `Machine` only while no machine is set, a number for
      `Gauge` and one of the four positions for `Position`. Names compare
      case-insensitively. */
  predicate Admissible(machine: string, name: string, value: string)
  {
    !Contains(name, ": ") && !Contains(value, "\n") &&
    !IEquals(name, "Carriers") &&
    (IEquals(name, "Machine") ==> machine == "") &&
    (IEquals(name, "Gauge") ==> IsNumber(value)) &&
    (IEquals(name, "Position") ==> value in SupportedPositions)
  }

  /** The checks of `addHeader` in the order it runs them; `machine` is the
      machine set by an earlier `Machine` header, or empty. */
  function HeaderCheck(machine: string, name: string, value: string): (st: Status)
    ensures st.Done? <==> Admissible(machine, name, value)
    ensures Contains(name, ": ") ==> st == Failed(InvalidHeaderName)
    ensures !Contains(name, ": ") && Contains(value, "\n") ==> st == Failed(InvalidHeaderValue)
  {
    if Contains(name, ": ") then Failed(InvalidHeaderName)
    else if Contains(value, "\n") then Failed(InvalidHeaderValue)
    else if IEquals(name, "Carriers") then Failed(ReservedHeaderName)
    else if IEquals(name, "Machine") then
      (if machine != "" then Failed(MachineAlreadySet) else Done)
    else if IEquals(name, "Gauge") then
      (if !IsNumber(value) then Failed(GaugeNotNumber) else Done)
    else if IEquals(name, "Position") then
      (if value !in SupportedPositions then Failed(InvalidPosition) else Done)
    else Done
  }

  /** The machine after an accepted header: a `Machine` header sets it. */
  function MachineAfter(machine: string, name: string, value: string): string
  {
    if IEquals(name, "Machine") then value else machine
  }

  /** A `Machine` header is accepted only while no machine is set, so an
      accepted header never replaces a machine already set. An empty value
      leaves the machine unset and a later `Machine` header is accepted. */
  lemma MachineSetOnce(machine: string, name: string, value: string)
    requires HeaderCheck(machine, name, value).Done?
    ensures machine != "" ==> MachineAfter(machine, name, value) == machine
    ensures IEquals(name, "Machine") ==> machine == "" && MachineAfter(machine, name, value) == value
  {
  }

  /** `isNumber("")` holds, so a `Gauge` header with an empty value passes. */
  lemma GaugeAcceptsEmpty(machine: string)
    ensures HeaderCheck(machine, "Gauge", "").Done?
  {
    NoSeparatorWithoutColon("Gauge");
    NoLineFeed("");
    assert !IEquals("Gauge", "Carriers");
    assert !IEquals("Gauge", "Machine");
  }

  /** A name that equals `Position` up to case is checked as a `Position`
      header, whose value must be one of the four positions exactly. */
  lemma PositionHeader(machine: string, name: string, value: string)
    requires IEquals(name, "Position")
    ensures HeaderCheck(machine, name, value).Done? <==> value in SupportedPositions && !Contains(value, "\n")
    ensures !Contains(value, "\n") && value !in SupportedPositions ==>
      HeaderCheck(machine, name, value) == Failed(InvalidPosition)
  {
    assert !Contains(name, ": ") by {
      forall i | 0 <= i < |name| ensures name[i] != ':' {
        assert ToLower(name[i]) == ToLower("Position"[i]);
      }
      NoSeparatorWithoutColon(name);
    }
    assert !IEquals(name, "Carriers") by {
      assert ToLower(name[0]) == ToLower("Position"[0]) != ToLower("Carriers"[0]);
    }
  }

  /** Position values compare case-sensitively: `left` equals `Left` up to
      case but is not one of the positions. */
  lemma PositionValueKeepsCase()
    ensures IEquals("left", "Left") && "left" !in SupportedPositions
  {
    assert "left" !in SupportedPositions by {
      forall i | 0 <= i < |SupportedPositions| ensures SupportedPositions[i] != "left" {
        assert SupportedPositions[i][0] != "left"[0];
      }
    }
  }

  /** A value without a line feed passes the value check. */
  lemma NoLineFeed(s: string)
    requires forall i :: 0 <= i < |s| ==> s[i] != '\n'
    ensures !Contains(s, "\n")
  {
    ContainsOne(s, '\n');
  }

  /** A one-character pattern is contained exactly when the character occurs. */
  lemma {:induction false} ContainsOne(s: string, c: char)
    ensures Contains(s, [c]) <==> c in s
    decreases |s|
  {
    if s != [] {
      ContainsOne(s[1..], c);
      assert s == [s[0]] + s[1..];
    }
  }

  // ---------------------------------------------------------------------------
  // The ": " separator

  /** The separator ": " starts at position `k` of `s`. */
  predicate SeparatorAt(s: string, k: int)
  {
    0 <= k && k + 1 < |s| && s[k] == ':' && s[k + 1] == ' '
  }

  /** `s.find(": ") != npos` says that the separator occurs somewhere. */
  lemma {:induction false} ContainsSeparator(s: string)
    ensures Contains(s, ": ") <==> exists k :: SeparatorAt(s, k)
    decreases |s|
  {
    assert ": " <= s <==> SeparatorAt(s, 0);
    if s != [] {
      ContainsSeparator(s[1..]);
      if exists k :: SeparatorAt(s[1..], k) {
        var k :| SeparatorAt(s[1..], k);
        assert SeparatorAt(s, k + 1);
      }
      if exists k :: SeparatorAt(s, k) {
        var k :| SeparatorAt(s, k);
        if k > 0 {
          assert SeparatorAt(s[1..], k - 1);
        }
      }
    }
  }

  /** A name without ':' holds no separator. */
  lemma NoSeparatorWithoutColon(s: string)
    requires forall i :: 0 <= i < |s| ==> s[i] != ':'
    ensures !Contains(s, ": ")
  {
    ContainsSeparator(s);
  }

  // ---------------------------------------------------------------------------
  // Reading a header line back

  /** Index of the first ": " in `s` at or after `from`, or `|s|`. */
  function FindSeparator(s: string, from: nat): (r: nat)
    requires from <= |s|
    ensures from <= r <= |s|
    ensures r < |s| ==> SeparatorAt(s, r)
    ensures forall k :: from <= k < r ==> !SeparatorAt(s, k)
    decreases |s| - from
  {
    if from + 1 >= |s| then |s|
    else if SeparatorAt(s, from) then from
    else FindSeparator(s, from + 1)
  }

  /** Reads a header line: `;;`, the name up to the first ": ", and the value. */
  function ParseHeaderLine(line: string): (r: Option<Header>)
    ensures r.Some? ==> HeaderLine(r.value) == line && !Contains(r.value.name, ": ")
  {
    if |line| < 2 || line[..2] != ";;" then None
    else
      var k := FindSeparator(line, 2);
      if k == |line| then None
      else
        var h := Header(line[2..k], line[k + 2..]);
        assert HeaderLine(h) == line by {
          assert line[k..k + 2] == ": ";
          assert line == line[..2] + line[2..k] + line[k..k + 2] + line[k + 2..];
        }
        assert !Contains(h.name, ": ") by {
          ContainsSeparator(h.name);
          forall j | SeparatorAt(h.name, j) ensures false {
            assert SeparatorAt(line, j + 2);
          }
        }
        Some(h)
  }

  /** Round trip: a header whose name holds no ": " (which `addHeader`
      demands) is read back from its line. */
  lemma HeaderLineRoundTrip(h: Header)
    requires !Contains(h.name, ": ")
    ensures ParseHeaderLine(HeaderLine(h)) == Some(h)
  {
    var line := HeaderLine(h);
    var n := |h.name|;
    assert line[..2] == ";;";
    assert line[2..2 + n] == h.name;
    assert line[2 + n + 2..] == h.value;
    ContainsSeparator(h.name);
    forall j | 2 <= j < 2 + n
      ensures !SeparatorAt(line, j)
    {
      if j + 1 < 2 + n {
        if SeparatorAt(line, j) {
          assert SeparatorAt(h.name, j - 2);
        }
      } else {
        assert line[j + 1] == ':';
      }
    }
    assert SeparatorAt(line, 2 + n);
    FindSeparatorAt(line, 2, 2 + n);
  }

  /** `FindSeparator` stops at the first separator. */
  lemma {:induction false} FindSeparatorAt(s: string, from: nat, k: nat)
    requires from <= k && SeparatorAt(s, k)
    requires forall j :: from <= j < k ==> !SeparatorAt(s, j)
    ensures FindSeparator(s, from) == k
    decreases k - from
  {
    if from < k {
      FindSeparatorAt(s, from + 1, k);
    }
  }

  // ---------------------------------------------------------------------------
  // The headers a writer has accepted

  /** The lines of the headers accepted so far, in order. */
  function HeaderLines(log: seq<Header>): (r: seq<string>)
    ensures |r| == |log| && forall i :: 0 <= i < |log| ==> r[i] == HeaderLine(log[i])
  {
    if log == [] then [] else HeaderLines(log[..|log| - 1]) + [HeaderLine(log[|log| - 1])]
  }

  /** `_machine` after the headers of `log`, starting from the empty machine. */
  function MachineOf(log: seq<Header>): string
  {
    if log == [] then ""
    else MachineAfter(MachineOf(log[..|log| - 1]), log[|log| - 1].name, log[|log| - 1].value)
  }

  /** Header `i` of the log passed the checks against the machine set before it. */
  predicate AcceptedAt(log: seq<Header>, i: nat)
    requires i < |log|
  {
    HeaderCheck(MachineOf(log[..i]), log[i].name, log[i].value).Done?
  }

  /** Every header passed the checks against the machine set before it. */
  predicate AcceptedLog(log: seq<Header>)
  {
    forall i :: 0 <= i < |log| ==> AcceptedAt(log, i)
  }

  /** Accepting one more header extends the log, its lines and its machine. */
  lemma AcceptOne(log: seq<Header>, h: Header)
    requires AcceptedLog(log) && HeaderCheck(MachineOf(log), h.name, h.value).Done?
    ensures AcceptedLog(log + [h])
    ensures MachineOf(log + [h]) == MachineAfter(MachineOf(log), h.name, h.value)
    ensures HeaderLines(log + [h]) == HeaderLines(log) + [HeaderLine(h)]
  {
    var l := log + [h];
    assert l[..|log|] == log;
    forall i | 0 <= i < |l| ensures AcceptedAt(l, i) {
      if i < |log| {
        assert l[..i] == log[..i] && AcceptedAt(log, i);
      }
    }
  }

  /** Once a non-empty machine is set it stays set: later accepted headers
      never change it. */
  lemma {:induction false} MachineStays(log: seq<Header>, i: nat, j: nat)
    requires AcceptedLog(log) && i <= j <= |log|
    requires MachineOf(log[..i]) != ""
    ensures MachineOf(log[..j]) == MachineOf(log[..i])
    decreases j - i
  {
    if i < j {
      MachineStays(log, i, j - 1);
      MachineStep(log, j - 1);
    }
  }

  /** One accepted header does not change a machine that is set. */
  lemma MachineStep(log: seq<Header>, k: nat)
    requires AcceptedLog(log) && k < |log|
    requires MachineOf(log[..k]) != ""
    ensures MachineOf(log[..k + 1]) == MachineOf(log[..k])
  {
    var before, h := log[..k], log[k];
    assert MachineOf(log[..k + 1]) == MachineAfter(MachineOf(before), h.name, h.value) by {
      assert log[..k + 1][..k] == before && log[..k + 1][k] == h;
    }
    assert AcceptedAt(log, k);
    MachineSetOnce(MachineOf(before), h.name, h.value);
  }

  /** In an accepted log, every `Machine` header followed by another
      `Machine` header has an empty value: a machine is named at most once. */
  lemma MachineNamedOnce(log: seq<Header>, i: nat, j: nat)
    requires AcceptedLog(log) && i < j < |log|
    requires IEquals(log[i].name, "Machine") && IEquals(log[j].name, "Machine")
    ensures log[i].value == ""
  {
    assert log[..i + 1][..i] == log[..i];
    assert MachineOf(log[..i + 1]) == log[i].value;
    assert AcceptedAt(log, j);
    assert MachineOf(log[..j]) == "";
    if log[i].value != "" {
      MachineStays(log, i + 1, j);
    }
  }

  /** Every line of an accepted log reads back as its header. */
  lemma AcceptedLinesReadBack(log: seq<Header>)
    requires AcceptedLog(log)
    ensures forall i :: 0 <= i < |log| ==> ParseHeaderLine(HeaderLines(log)[i]) == Some(log[i])
  {
    forall i | 0 <= i < |log| ensures ParseHeaderLine(HeaderLines(log)[i]) == Some(log[i]) {
      assert AcceptedAt(log, i);
      HeaderLineRoundTrip(log[i]);
    }
  }

  /** The `Carriers` header reads back with the joined carrier names. */
  lemma CarriersHeaderReadsBack(carriers: seq<string>)
    ensures ParseHeaderLine(CarriersHeader(carriers)) == Some(Header("Carriers", Join(carriers, " ")))
  {
    NoSeparatorWithoutColon("Carriers");
    HeaderLineRoundTrip(Header("Carriers", Join(carriers, " ")));
  }
}
