/** Comments in the operation section: `comment` cuts its text into lines
    at each line feed and writes every line as `;` followed by the line
    without its leading semicolons, so no comment line can pass for a
    header line. */
module Comments {
  import opened Text

  /** The length of the run of ';' that starts `s`. */
  function LeadingCount(s: string): (n: nat)
    ensures n <= |s|
    ensures forall i :: 0 <= i < n ==> s[i] == ';'
    ensures n < |s| ==> s[n] != ';'
  {
    if s == [] || s[0] != ';' then 0 else 1 + LeadingCount(s[1..])
  }

  /** The counting loop of `comment`: `cntr` goes up while the characters
      are ';' and the loop stops at the first other one. */
  method LeadingSemicolons(s: string) returns (cntr: nat)
    ensures cntr == LeadingCount(s)
  {
    cntr := 0;
    while cntr < |s| && s[cntr] == ';'
      invariant cntr <= |s|
      invariant forall i :: 0 <= i < cntr ==> s[i] == ';'
    {
      cntr := cntr + 1;
    }
    LeadingCountIs(s, cntr);
  }

  /** `LeadingCount` is the length of the run, wherever it is counted from. */
  lemma {:induction false} LeadingCountIs(s: string, n: nat)
    requires n <= |s|
    requires forall i :: 0 <= i < n ==> s[i] == ';'
    requires n < |s| ==> s[n] != ';'
    ensures LeadingCount(s) == n
    decreases n
  {
    if n > 0 {
      LeadingCountIs(s[1..], n - 1);
    }
  }

  /** One line of a comment without its leading semicolons. */
  function StripSemicolons(piece: string): (r: string)
    ensures |r| <= |piece| && piece == piece[..|piece| - |r|] + r
    ensures forall i :: 0 <= i < |piece| - |r| ==> piece[i] == ';'
    ensures r == [] || r[0] != ';'
  {
    piece[LeadingCount(piece)..]
  }

  /** The line `comment` writes for one line of its text. */
  function CommentLine(piece: string): string
  {
    ";" + StripSemicolons(piece)
  }

  /** The lines `comment(str)` appends: one per piece of `split(str, "\n")`. */
  function CommentLines(str: string): seq<string>
  {
    CommentLinesOf(Pieces(str, '\n'))
  }

  function CommentLinesOf(pieces: seq<string>): (lines: seq<string>)
    ensures |lines| == |pieces|
    ensures forall i :: 0 <= i < |pieces| ==> lines[i] == CommentLine(pieces[i])
  {
    if pieces == [] then [] else [CommentLine(pieces[0])] + CommentLinesOf(pieces[1..])
  }

  /** One more piece, one more line at the end. */
  lemma CommentLinesOfPrefix(pieces: seq<string>, i: nat)
    requires i < |pieces|
    ensures CommentLinesOf(pieces[..i + 1]) == CommentLinesOf(pieces[..i]) + [CommentLine(pieces[i])]
  {
    var a, b := CommentLinesOf(pieces[..i + 1]), CommentLinesOf(pieces[..i]) + [CommentLine(pieces[i])];
    assert |a| == |b|;
    forall k | 0 <= k < |a| ensures a[k] == b[k] {
      if k < i {
        assert pieces[..i + 1][k] == pieces[..i][k];
      }
    }
  }

  /** Every comment line is a single line that starts with exactly one ';';
      there is one line more than the text has line feeds. */
  lemma CommentLinesShape(str: string)
    ensures |CommentLines(str)| == multiset(str)['\n'] + 1
    ensures forall i :: 0 <= i < |CommentLines(str)| ==>
      var line := CommentLines(str)[i];
      |line| >= 1 && line[0] == ';' && (|line| >= 2 ==> line[1] != ';') && '\n' !in line
  {
    PiecesSpec(str, '\n');
    var pieces := Pieces(str, '\n');
    var lines := CommentLines(str);
    forall i | 0 <= i < |lines|
      ensures |lines[i]| >= 1 && lines[i][0] == ';' && (|lines[i]| >= 2 ==> lines[i][1] != ';') && '\n' !in lines[i]
    {
      CommentLineShape(pieces[i]);
    }
  }

  /** The line written for one piece of text without line feeds. */
  lemma CommentLineShape(piece: string)
    requires '\n' !in piece
    ensures var line := CommentLine(piece);
      |line| >= 1 && line[0] == ';' && (|line| >= 2 ==> line[1] != ';') && '\n' !in line
  {
    var r := StripSemicolons(piece);
    assert forall k :: 0 <= k < |r| ==> r[k] == piece[|piece| - |r| + k];
    assert CommentLine(piece) == ";" + r;
  }

  /** The text of a comment line: everything after its ';'. */
  function Bodies(lines: seq<string>): (r: seq<string>)
    requires forall i :: 0 <= i < |lines| ==> lines[i] != []
    ensures |r| == |lines|
    ensures forall i :: 0 <= i < |lines| ==> r[i] == lines[i][1..]
  {
    if lines == [] then [] else [lines[0][1..]] + Bodies(lines[1..])
  }

  /** No line of `str` starts with ';'. */
  predicate NoLineStartsWithSemicolon(str: string)
  {
    forall i :: 0 <= i < |Pieces(str, '\n')| ==> Pieces(str, '\n')[i] == [] || Pieces(str, '\n')[i][0] != ';'
  }

  /** Round trip: when no line of the text starts with ';', the text after
      the ';' of each comment line, rejoined with line feeds, is the text. */
  lemma CommentRoundTrip(str: string)
    requires NoLineStartsWithSemicolon(str)
    ensures Join(Bodies(CommentLines(str)), "\n") == str
  {
    var pieces := Pieces(str, '\n');
    var lines := CommentLines(str);
    assert Bodies(lines) == pieces by {
      forall i | 0 <= i < |pieces| ensures Bodies(lines)[i] == pieces[i] {
        assert LeadingCount(pieces[i]) == 0;
      }
    }
    PiecesSpec(str, '\n');
  }

  /** Stripping is all `comment` does to a line: a second pass over its own
      output changes nothing. */
  lemma CommentLineStable(piece: string)
    ensures CommentLine(CommentLine(piece)[1..]) == CommentLine(piece)
  {
    var r := StripSemicolons(piece);
    assert CommentLine(piece)[1..] == r;
    assert LeadingCount(r) == 0;
  }
}
