/** The string helpers of the writer: trimming, case-insensitive comparison,
    the `strtol`-based number test, decimal formatting, `join`, `splitAny`
    (carrier lists) and `split` (comment lines). Strings are sequences of
    characters; the C library's character classes are those of the "C" locale. */
module Text {

  /** `std::isspace` in the "C" locale: space, \t, \n, \v, \f, \r. */
  predicate IsSpace(c: char)
  {
    c == ' ' || c == '\t' || c == '\n' || c == '\r' || c as int == 11 || c as int == 12
  }

  /** `isdigit`. */
  predicate IsDigit(c: char)
  {
    '0' <= c <= '9'
  }

  predicate AllDigits(s: string)
  {
    forall i :: 0 <= i < |s| ==> IsDigit(s[i])
  }

  /** No character of `s` is one of `delims`. */
  predicate NoneOf(s: string, delims: string)
  {
    forall i :: 0 <= i < |s| ==> s[i] !in delims
  }

  // ---------------------------------------------------------------------------
  // Trimming (ltrim, rtrim, trim_copy)

  /** `ltrim`: drops the leading whitespace; what is left is a suffix of `s`. */
  function TrimLeft(s: string): (r: string)
    ensures |r| <= |s| && r == s[|s| - |r|..]
    ensures forall i :: 0 <= i < |s| - |r| ==> IsSpace(s[i])
    ensures r == [] || !IsSpace(r[0])
    decreases |s|
  {
    if s != [] && IsSpace(s[0]) then TrimLeft(s[1..]) else s
  }

  /** `rtrim`: drops the trailing whitespace; what is left is a prefix of `s`. */
  function TrimRight(s: string): (r: string)
    ensures |r| <= |s| && r == s[..|r|]
    ensures forall i :: |r| <= i < |s| ==> IsSpace(s[i])
    ensures r == [] || !IsSpace(r[|r| - 1])
    decreases |s|
  {
    if s != [] && IsSpace(s[|s| - 1]) then TrimRight(s[..|s| - 1]) else s
  }

  /** `r` is what is left of `s` after dropping whitespace characters, one
      at a time, from either end. */
  predicate WhitespaceCut(s: string, r: string)
    decreases |s|
  {
    s == r ||
    (s != [] && IsSpace(s[0]) && WhitespaceCut(s[1..], r)) ||
    (s != [] && IsSpace(s[|s| - 1]) && WhitespaceCut(s[..|s| - 1], r))
  }

  /** `trim_copy`: left trim, then right trim. The result is the middle of
      `s`, with only whitespace cut off on either side. */
  function Trim(s: string): (r: string)
    ensures |r| <= |s|
    ensures r == [] || (!IsSpace(r[0]) && !IsSpace(r[|r| - 1]))
    ensures WhitespaceCut(s, r)
  {
    TrimMiddle(s);
    TrimRight(TrimLeft(s))
  }

  /** The proof that `Trim` cuts only whitespace: the right trim cuts it off
      the end of what the left trim leaves. */
  lemma TrimMiddle(s: string)
    ensures WhitespaceCut(s, TrimRight(TrimLeft(s)))
  {
    TrimRightCuts(TrimLeft(s));
    TrimLeftCuts(s, TrimRight(TrimLeft(s)));
  }

  /** `rtrim` drops whitespace characters from the end only. */
  lemma {:induction false} TrimRightCuts(l: string)
    ensures WhitespaceCut(l, TrimRight(l))
    decreases |l|
  {
    if l != [] && IsSpace(l[|l| - 1]) {
      TrimRightCuts(l[..|l| - 1]);
    }
  }

  /** Whatever is cut from what `ltrim` leaves is cut from the whole. */
  lemma {:induction false} TrimLeftCuts(s: string, r: string)
    requires WhitespaceCut(TrimLeft(s), r)
    ensures WhitespaceCut(s, r)
    decreases |s|
  {
    if s != [] && IsSpace(s[0]) {
      TrimLeftCuts(s[1..], r);
    }
  }

  /** A string with no whitespace at either end is its own trim. */
  lemma TrimKeeps(s: string)
    requires s == [] || (!IsSpace(s[0]) && !IsSpace(s[|s| - 1]))
    ensures Trim(s) == s
  {
    assert TrimLeft(s) == s;
  }

  /** Trimming twice trims nothing more: the carrier names the writer
      stores are already in the form it looks them up in. */
  lemma TrimIdempotent(s: string)
    ensures Trim(Trim(s)) == Trim(s)
  {
    TrimKeeps(Trim(s));
  }

  /** The trim of `s` is empty exactly when `s` is all whitespace. */
  lemma {:induction false} TrimEmpty(s: string)
    ensures Trim(s) == [] <==> forall i :: 0 <= i < |s| ==> IsSpace(s[i])
  {
    var l := TrimLeft(s);
    if l != [] {
      assert !IsSpace(s[|s| - |l|]);
    }
  }

  // ---------------------------------------------------------------------------
  // Case-insensitive comparison (iequals) and substring search

  /** `tolower` in the "C" locale. */
  function ToLower(c: char): char
  {
    if 'A' <= c <= 'Z' then (c as int + 32) as char else c
  }

  /** `iequals`: same length and equal character by character after `tolower`. */
  predicate IEquals(a: string, b: string)
  {
    |a| == |b| && forall i :: 0 <= i < |a| ==> ToLower(a[i]) == ToLower(b[i])
  }

  /** `s.find(pat) != npos`. */
  predicate Contains(s: string, pat: string)
    decreases |s|
  {
    pat <= s || (s != [] && Contains(s[1..], pat))
  }

  // ---------------------------------------------------------------------------
  // Decimal numbers (toString, strtol, isNumber)

  function DigitChar(d: nat): char
    requires d < 10
  {
    ('0' as int + d) as char
  }

  function DigitValue(c: char): nat
  {
    if IsDigit(c) then c as int - '0' as int else 0
  }

  /** Decimal text of a natural number, without leading zeros (`toString`). */
  function NatToString(n: nat): (r: string)
    ensures |r| >= 1 && AllDigits(r)
    ensures r[0] == '0' ==> n == 0
  {
    if n < 10 then [DigitChar(n)] else NatToString(n / 10) + [DigitChar(n % 10)]
  }

  /** Decimal text of an integer, with a leading '-' when negative (`toString`). */
  function IntToString(i: int): string
  {
    if i < 0 then "-" + NatToString(-i) else NatToString(i)
  }

  /** The value `strtol` reads from a string of decimal digits. */
  function DigitsValue(s: string): nat
  {
    if s == [] then 0 else DigitsValue(s[..|s| - 1]) * 10 + DigitValue(s[|s| - 1])
  }

  /** Reading back the decimal text of `n` gives `n`. */
  lemma {:induction false} DigitsValueOfNatToString(n: nat)
    ensures DigitsValue(NatToString(n)) == n
  {
    if n >= 10 {
      var s := NatToString(n);
      assert s[..|s| - 1] == NatToString(n / 10);
      DigitsValueOfNatToString(n / 10);
    }
  }

  /** `isNumber`: `strtol(s, &end, 10)` leaves `end` at the terminating NUL.
      `strtol` skips leading whitespace and one optional sign and then reads
      digits; when it reads no digit, `end` is `s` itself, so the empty string
      passes and every other digit-less string fails. */
  predicate IsNumber(s: string)
  {
    var t := TrimLeft(s);
    var u := if t != [] && (t[0] == '+' || t[0] == '-') then t[1..] else t;
    (u != [] && AllDigits(u)) || s == []
  }

  /** For a string that starts with a digit, `isNumber` means "only digits". */
  lemma DigitLedNumber(s: string)
    requires s != [] && IsDigit(s[0])
    ensures IsNumber(s) <==> AllDigits(s)
  {
    assert !IsSpace(s[0]);
    assert TrimLeft(s) == s;
    assert s[0] != '+' && s[0] != '-';
  }

  // ---------------------------------------------------------------------------
  // join

  /** `join(parts, sep)`: the parts with `sep` between neighbours. */
  function Join(parts: seq<string>, sep: string): string
  {
    if |parts| == 0 then ""
    else if |parts| == 1 then parts[0]
    else parts[0] + sep + Join(parts[1..], sep)
  }

  /** Joining two non-empty lists of parts joins each and puts the separator
      between them. */
  lemma {:induction false} JoinAppend(a: seq<string>, b: seq<string>, sep: string)
    requires a != [] && b != []
    ensures Join(a + b, sep) == Join(a, sep) + sep + Join(b, sep)
    decreases |a|
  {
    var ab := a + b;
    assert ab[0] == a[0];
    if |a| == 1 {
      assert ab[1..] == b;
    } else {
      assert ab[1..] == a[1..] + b;
      JoinAppend(a[1..], b, sep);
      var x, y, z := Join(a[1..], sep), Join(b, sep), a[0] + sep;
      assert z + (x + sep + y) == (z + x) + sep + y;
    }
  }

  // ---------------------------------------------------------------------------
  // splitAny: split on any run of delimiter characters, dropping empty words

  /** `s.find_first_of(delims, from)`, with `|s|` for `npos`. */
  function FindFirstOf(s: string, delims: string, from: nat): (r: nat)
    requires from <= |s|
    ensures from <= r <= |s|
    ensures r < |s| ==> s[r] in delims
    ensures forall k :: from <= k < r ==> s[k] !in delims
    decreases |s| - from
  {
    if from == |s| then |s|
    else if s[from] in delims then from
    else FindFirstOf(s, delims, from + 1)
  }

  /** The words `splitAny` still collects when its scan position is `prev`. */
  function TokensFrom(s: string, delims: string, prev: nat): (r: seq<string>)
    requires prev <= |s|
    ensures forall i :: 0 <= i < |r| ==> r[i] != [] && NoneOf(r[i], delims)
    decreases |s| - prev
  {
    var pos := FindFirstOf(s, delims, prev);
    if pos == |s| then
      (if prev < |s| then [s[prev..]] else [])
    else
      (if pos > prev then [s[prev..pos]] else []) + TokensFrom(s, delims, pos + 1)
  }

  /** `splitAny(s, delims)`. */
  function Tokens(s: string, delims: string): (r: seq<string>)
    ensures forall i :: 0 <= i < |r| ==> r[i] != [] && NoneOf(r[i], delims)
  {
    TokensFrom(s, delims, 0)
  }

  /** `splitAny` as the writer runs it: repeated `find_first_of` from the
      previous delimiter, keeping each non-empty word in between. */
  method SplitAny(s: string, delims: string) returns (words: seq<string>)
    ensures words == Tokens(s, delims)
    ensures forall i :: 0 <= i < |words| ==> words[i] != [] && NoneOf(words[i], delims)
  {
    words := [];
    var prev := 0;
    var pos := FindFirstOf(s, delims, prev);
    while pos < |s|
      invariant prev <= pos <= |s|
      invariant pos == FindFirstOf(s, delims, prev)
      invariant words + TokensFrom(s, delims, prev) == Tokens(s, delims)
      decreases |s| - prev
    {
      TokensFromStep(s, delims, words, prev);
      if pos > prev {
        words := words + [s[prev..pos]];
      }
      prev := pos + 1;
      pos := FindFirstOf(s, delims, prev);
    }
    if prev < |s| {
      words := words + [s[prev..]];
    }
  }

  /** One round of `splitAny`'s loop: the word before the next delimiter, if
      any, joins the words collected so far, and the scan goes on after the
      delimiter. */
  lemma TokensFromStep(s: string, delims: string, words: seq<string>, prev: nat)
    requires prev <= |s| && FindFirstOf(s, delims, prev) < |s|
    ensures var pos := FindFirstOf(s, delims, prev);
      words + TokensFrom(s, delims, prev) ==
        (if pos > prev then words + [s[prev..pos]] else words) + TokensFrom(s, delims, pos + 1)
  {
    var pos := FindFirstOf(s, delims, prev);
    var rest := TokensFrom(s, delims, pos + 1);
    TokensFromUnfold(s, delims, prev);
    if pos > prev {
      Assoc(words, [s[prev..pos]], rest);
    } else {
      assert [] + rest == rest;
    }
  }

  /** `TokensFrom` before a delimiter: the word up to it, if not empty, then
      the words after it. */
  lemma TokensFromUnfold(s: string, delims: string, prev: nat)
    requires prev <= |s| && FindFirstOf(s, delims, prev) < |s|
    ensures var pos := FindFirstOf(s, delims, prev);
      TokensFrom(s, delims, prev) ==
        (if pos > prev then [s[prev..pos]] else []) + TokensFrom(s, delims, pos + 1)
  {
  }

  /** A run of characters with no delimiter, then a delimiter: `find_first_of`
      stops right after the run. */
  lemma {:induction false} FindAfterRun(pre: string, w: string, rest: string, delims: string)
    requires NoneOf(w, delims)
    requires rest == [] || rest[0] in delims
    ensures FindFirstOf(pre + w + rest, delims, |pre|) == |pre| + |w|
  {
    var s := pre + w + rest;
    forall k | |pre| <= k < |pre| + |w|
      ensures s[k] !in delims
    {
      assert s[k] == w[k - |pre|];
    }
    if rest != [] {
      assert s[|pre| + |w|] == rest[0];
    }
  }

  /** Every character of `s` is one of `delims`. */
  predicate AllOf(s: string, delims: string)
  {
    forall i :: 0 <= i < |s| ==> s[i] in delims
  }

  /** A run of delimiters yields no word: the scan steps over it. */
  lemma {:induction false} SkipDelimiters(s: string, delims: string, p: nat, k: nat)
    requires p + k <= |s|
    requires forall j :: p <= j < p + k ==> s[j] in delims
    ensures TokensFrom(s, delims, p) == TokensFrom(s, delims, p + k)
    decreases k
  {
    if k > 0 {
      assert FindFirstOf(s, delims, p) == p;
      TokensFromUnfold(s, delims, p);
      assert [] + TokensFrom(s, delims, p + 1) == TokensFrom(s, delims, p + 1);
      SkipDelimiters(s, delims, p + 1, k - 1);
    }
  }

  /** From a position followed only by delimiters, `splitAny` collects
      nothing more. */
  lemma TokensFromEnd(pre: string, tail: string, delims: string)
    requires AllOf(tail, delims)
    ensures TokensFrom(pre + tail, delims, |pre|) == []
  {
    var s := pre + tail;
    forall j | |pre| <= j < |s|
      ensures s[j] in delims
    {
      assert s[j] == tail[j - |pre|];
    }
    SkipDelimiters(s, delims, |pre|, |tail|);
  }

  /** One word, then only delimiters, is collected as that one word. */
  lemma TokensFromOne(pre: string, w: string, tail: string, delims: string)
    requires w != [] && NoneOf(w, delims)
    requires AllOf(tail, delims)
    ensures TokensFrom(pre + w + tail, delims, |pre|) == [w]
  {
    var s := pre + w + tail;
    var pos := |pre| + |w|;
    assert FindFirstOf(s, delims, |pre|) == pos && s[|pre|..pos] == w by {
      FindAfterRun(pre, w, tail, delims);
      Middle(pre, w, tail);
    }
    if tail == [] {
      assert pos == |s| && s[|pre|..] == w;
      TokensFromLast(s, |pre|, w, delims);
    } else {
      assert pos < |s| && s[pos] in delims && TokensFrom(s, delims, pos) == [] by {
        assert s[pos] == tail[0];
        TokensFromEnd(pre + w, tail, delims);
      }
      TokensFromWordThenNothing(s, |pre|, pos, w, delims);
    }
  }

  /** A non-empty word that runs to the end is the last word collected. */
  lemma TokensFromLast(s: string, prev: nat, w: string, delims: string)
    requires prev < |s| && FindFirstOf(s, delims, prev) == |s| && s[prev..] == w
    ensures TokensFrom(s, delims, prev) == [w]
  {
  }

  /** A non-empty word ends at a delimiter after which nothing is collected:
      it is the only word. */
  lemma TokensFromWordThenNothing(s: string, prev: nat, pos: nat, w: string, delims: string)
    requires prev < pos < |s| && FindFirstOf(s, delims, prev) == pos && s[prev..pos] == w
    requires s[pos] in delims && TokensFrom(s, delims, pos) == []
    ensures TokensFrom(s, delims, prev) == [w]
  {
    SkipDelimiters(s, delims, pos, 1);
    TokensFromWord(s, prev, pos, w, delims);
    assert [w] + [] == [w];
  }

  /** After the first delimiter of a run, the scan finds what it finds
      after the whole run. */
  lemma TokensFromAfterSeparator(s: string, delims: string, pos: nat, k: nat)
    requires 1 <= k && pos + k <= |s|
    requires forall j :: pos <= j < pos + k ==> s[j] in delims
    ensures TokensFrom(s, delims, pos + 1) == TokensFrom(s, delims, pos + k)
  {
    SkipDelimiters(s, delims, pos + 1, k - 1);
  }

  /** Where `find_first_of` stops after a word followed by a run of
      delimiters, and that the run is all delimiters. */
  lemma WordBeforeDelimiter(s: string, pre: string, w: string, sep: string, rest: string, delims: string)
    requires NoneOf(w, delims) && sep != [] && AllOf(sep, delims)
    requires s == pre + w + (sep + rest)
    ensures |pre| + |w| + |sep| <= |s|
    ensures FindFirstOf(s, delims, |pre|) == |pre| + |w|
    ensures s[|pre|..|pre| + |w|] == w
    ensures forall j :: |pre| + |w| <= j < |pre| + |w| + |sep| ==> s[j] in delims
  {
    assert (sep + rest)[0] == sep[0];
    FindAfterRun(pre, w, sep + rest, delims);
    Middle(pre, w, sep + rest);
    forall j | |pre| + |w| <= j < |pre| + |w| + |sep|
      ensures s[j] in delims
    {
      assert s[j] == (sep + rest)[j - |pre| - |w|] == sep[j - |pre| - |w|];
    }
  }

  /** A non-empty word that ends at a delimiter is collected, then the
      words after the delimiter. */
  lemma TokensFromWord(s: string, prev: nat, pos: nat, w: string, delims: string)
    requires prev < pos < |s| && FindFirstOf(s, delims, prev) == pos
    requires s[prev..pos] == w
    ensures TokensFrom(s, delims, prev) == [w] + TokensFrom(s, delims, pos + 1)
  {
    TokensFromUnfold(s, delims, prev);
  }

  /** The middle part of a concatenation, cut out again. */
  lemma Middle<T>(a: seq<T>, b: seq<T>, c: seq<T>)
    ensures (a + b + c)[|a|..|a| + |b|] == b
  {
    var s := a + b + c;
    assert forall k :: 0 <= k < |b| ==> s[|a| + k] == b[k];
  }

  /** A non-empty sequence is its head followed by its tail. */
  lemma HeadTail<T>(xs: seq<T>)
    requires xs != []
    ensures [xs[0]] + xs[1..] == xs
  {
  }

  /** Splitting joined words gives the words back, provided none is empty or
      contains a delimiter, the separator is a non-empty run of delimiters,
      and only delimiters follow the words. */
  lemma {:induction false} TokensFromJoin(s: string, pre: string, cs: seq<string>, sep: string, tail: string, delims: string)
    requires sep != [] && AllOf(sep, delims)
    requires forall i :: 0 <= i < |cs| ==> cs[i] != [] && NoneOf(cs[i], delims)
    requires AllOf(tail, delims)
    requires s == pre + Join(cs, sep) + tail
    ensures |pre| <= |s| && TokensFrom(s, delims, |pre|) == cs
    decreases |cs|
  {
    if |cs| <= 1 {
      TokensFromJoinShort(s, pre, cs, sep, tail, delims);
    } else {
      var pre2 := pre + cs[0] + sep;
      JoinFirst(s, pre, cs, sep, tail);
      TokensFromJoin(s, pre2, cs[1..], sep, tail, delims);
      TokensFromJoinStep(s, pre, cs, sep, tail, delims);
    }
  }

  /** The step of `TokensFromJoin`: the first word is collected, then the
      scan steps over the separator to the words after it. */
  lemma TokensFromJoinStep(s: string, pre: string, cs: seq<string>, sep: string, tail: string, delims: string)
    requires |cs| >= 2 && sep != [] && AllOf(sep, delims)
    requires cs[0] != [] && NoneOf(cs[0], delims)
    requires s == pre + Join(cs, sep) + tail
    requires |pre + cs[0] + sep| <= |s| && TokensFrom(s, delims, |pre + cs[0] + sep|) == cs[1..]
    ensures TokensFrom(s, delims, |pre|) == cs
  {
    var pos := |pre| + |cs[0]|;
    assert pos < |s| && FindFirstOf(s, delims, |pre|) == pos && s[|pre|..pos] == cs[0] &&
           (forall j :: pos <= j < pos + |sep| ==> s[j] in delims) by {
      JoinFirst(s, pre, cs, sep, tail);
      WordBeforeDelimiter(s, pre, cs[0], sep, Join(cs[1..], sep) + tail, delims);
    }
    TokensFromWordRun(s, |pre|, cs[0], |sep|, cs[1..], delims);
    HeadTail(cs);
  }

  /** A non-empty word, then a run of `k` delimiters, then text holding the
      words `rest`: the word is collected, then `rest`. */
  lemma TokensFromWordRun(s: string, prev: nat, w: string, k: nat, rest: seq<string>, delims: string)
    requires w != [] && 1 <= k && prev + |w| + k <= |s|
    requires FindFirstOf(s, delims, prev) == prev + |w| && s[prev..prev + |w|] == w
    requires forall j :: prev + |w| <= j < prev + |w| + k ==> s[j] in delims
    requires TokensFrom(s, delims, prev + |w| + k) == rest
    ensures TokensFrom(s, delims, prev) == [w] + rest
  {
    var pos := prev + |w|;
    assert TokensFrom(s, delims, pos + 1) == rest by {
      TokensFromAfterSeparator(s, delims, pos, k);
    }
    TokensFromWord(s, prev, pos, w, delims);
  }

  /** `TokensFromJoin` for no word or one word. */
  lemma TokensFromJoinShort(s: string, pre: string, cs: seq<string>, sep: string, tail: string, delims: string)
    requires |cs| <= 1
    requires forall i :: 0 <= i < |cs| ==> cs[i] != [] && NoneOf(cs[i], delims)
    requires AllOf(tail, delims)
    requires s == pre + Join(cs, sep) + tail
    ensures |pre| <= |s| && TokensFrom(s, delims, |pre|) == cs
  {
    if |cs| == 0 {
      TokensFromJoinNone(s, pre, cs, sep, tail, delims);
    } else {
      TokensFromJoinSingle(s, pre, cs, sep, tail, delims);
    }
  }

  /** No word: only the tail is left, and it holds no word. */
  lemma TokensFromJoinNone(s: string, pre: string, cs: seq<string>, sep: string, tail: string, delims: string)
    requires |cs| == 0
    requires AllOf(tail, delims)
    requires s == pre + Join(cs, sep) + tail
    ensures |pre| <= |s| && TokensFrom(s, delims, |pre|) == cs
  {
    assert Join(cs, sep) == [];
    assert pre + [] == pre;
    TokensFromEnd(pre, tail, delims);
  }

  /** One word: it is the only token before the tail. */
  lemma TokensFromJoinSingle(s: string, pre: string, cs: seq<string>, sep: string, tail: string, delims: string)
    requires |cs| == 1 && cs[0] != [] && NoneOf(cs[0], delims)
    requires AllOf(tail, delims)
    requires s == pre + Join(cs, sep) + tail
    ensures |pre| <= |s| && TokensFrom(s, delims, |pre|) == cs
  {
    assert Join(cs, sep) == cs[0];
    TokensFromOne(pre, cs[0], tail, delims);
  }

  /** Joined text split after its first word and separator. */
  lemma JoinFirst(s: string, pre: string, cs: seq<string>, sep: string, tail: string)
    requires |cs| >= 2
    requires s == pre + Join(cs, sep) + tail
    ensures s == (pre + cs[0] + sep) + Join(cs[1..], sep) + tail
    ensures s == pre + cs[0] + (sep + (Join(cs[1..], sep) + tail))
  {
    var w, r := cs[0], Join(cs[1..], sep);
    assert Join(cs, sep) == w + sep + r;
    calc {
      s;
      pre + ((w + sep) + r) + tail;
      { Assoc(pre, w + sep, r); }
      (pre + (w + sep) + r) + tail;
      { Assoc(pre, w, sep); }
      (pre + w + sep) + r + tail;
    }
    calc {
      s;
      ((pre + w + sep) + r) + tail;
      { Assoc(pre + w + sep, r, tail); }
      (pre + w + sep) + (r + tail);
      { Assoc(pre + w, sep, r + tail); }
      (pre + w) + (sep + (r + tail));
    }
  }

  /** Concatenation is associative. */
  lemma Assoc<T>(a: seq<T>, b: seq<T>, c: seq<T>)
    ensures (a + b) + c == a + (b + c)
  {
  }

  /** Joining carrier names with any non-empty run of spaces and commas, such
      as `" "` or `", "`, and splitting the result on spaces and commas gives
      the names back, when every name is non-empty and free of those
      delimiters; trailing spaces and commas change nothing. */
  lemma SplitAnyOfJoin(cs: seq<string>, sep: string, tail: string)
    requires forall i :: 0 <= i < |cs| ==> cs[i] != [] && NoneOf(cs[i], " ,")
    requires sep != [] && AllOf(sep, " ,")
    requires AllOf(tail, " ,")
    ensures Tokens(Join(cs, sep) + tail, " ,") == cs
  {
    var j := Join(cs, sep);
    assert "" + j == j;
    TokensFromJoin(j + tail, "", cs, sep, tail, " ,");
  }

  /** A string of delimiters only holds no word. */
  lemma TokensOfDelimiters(s: string, delims: string)
    requires AllOf(s, delims)
    ensures Tokens(s, delims) == []
  {
    assert "" + s == s;
    TokensFromEnd("", s, delims);
  }

  // ---------------------------------------------------------------------------
  // split: cut at every delimiter, keeping empty pieces

  /** The pieces `split` still collects from position `start` on. */
  function PiecesFrom(s: string, d: char, start: nat): (r: seq<string>)
    requires start <= |s|
    ensures |r| >= 1
    ensures forall i :: 0 <= i < |r| ==> d !in r[i]
    decreases |s| - start
  {
    var pos := FindFirstOf(s, [d], start);
    if pos == |s| then [s[start..]] else [s[start..pos]] + PiecesFrom(s, d, pos + 1)
  }

  /** `split(s, d)`. */
  function Pieces(s: string, d: char): (r: seq<string>)
    ensures |r| >= 1
    ensures forall i :: 0 <= i < |r| ==> d !in r[i]
  {
    PiecesFrom(s, d, 0)
  }

  /** `split` as the writer runs it: `find` the delimiter from the previous
      cut, keep the piece before it, and finally keep the remainder. */
  method Split(s: string, d: char) returns (words: seq<string>)
    ensures words == Pieces(s, d)
    ensures |words| >= 1
  {
    words := [];
    var start := 0;
    var pos := FindFirstOf(s, [d], start);
    while pos < |s|
      invariant start <= pos <= |s|
      invariant pos == FindFirstOf(s, [d], start)
      invariant words + PiecesFrom(s, d, start) == Pieces(s, d)
      decreases |s| - start
    {
      words := words + [s[start..pos]];
      start := pos + 1;
      pos := FindFirstOf(s, [d], start);
    }
    words := words + [s[start..]];
  }

  /** A suffix of `s` cut around position `pos`. */
  lemma SliceAround(s: string, start: nat, pos: nat)
    requires start <= pos < |s|
    ensures s[start..] == s[start..pos] + [s[pos]] + s[pos + 1..]
  {
    var t := s[start..pos] + [s[pos]] + s[pos + 1..];
    assert forall i :: 0 <= i < |t| ==> t[i] == s[start + i];
  }

  /** A string without `d` counts no `d`. */
  lemma NoneCounted(s: string, d: char)
    requires forall k :: 0 <= k < |s| ==> s[k] != d
    ensures multiset(s)[d] == 0
  {
    assert d !in s;
  }

  /** There is one piece more than there are delimiters. */
  lemma {:induction false} PiecesFromCount(s: string, d: char, start: nat)
    requires start <= |s|
    ensures |PiecesFrom(s, d, start)| == multiset(s[start..])[d] + 1
    decreases |s| - start
  {
    var pos := FindFirstOf(s, [d], start);
    if pos == |s| {
      NoneCounted(s[start..], d);
    } else {
      var later := multiset(s[pos + 1..])[d];
      PiecesFromCount(s, d, pos + 1);
      assert multiset(s[start..])[d] == later + 1 by {
        SliceAround(s, start, pos);
        NoneCounted(s[start..pos], d);
        assert multiset(s[start..]) == multiset(s[start..pos]) + multiset{s[pos]} + multiset(s[pos + 1..]);
      }
      assert PiecesFrom(s, d, start) == [s[start..pos]] + PiecesFrom(s, d, pos + 1);
    }
  }

  /** Rejoining the pieces with the delimiter restores the string. */
  lemma {:induction false} JoinPiecesFrom(s: string, d: char, start: nat)
    requires start <= |s|
    ensures Join(PiecesFrom(s, d, start), [d]) == s[start..]
    decreases |s| - start
  {
    var pos := FindFirstOf(s, [d], start);
    if pos < |s| {
      var first, rest := s[start..pos], PiecesFrom(s, d, pos + 1);
      assert PiecesFrom(s, d, start) == [first] + rest;
      JoinCons(first, rest, [d]);
      JoinPiecesFrom(s, d, pos + 1);
      SliceAround(s, start, pos);
      assert s[pos] == d;
    } else {
      assert PiecesFrom(s, d, start) == [s[start..]];
    }
  }

  /** When the text from `start` on is the pieces `ps` joined with `d`, and
      no piece holds `d`, `split` collects exactly `ps` from there. */
  lemma {:induction false} PiecesFromJoin(s: string, d: char, start: nat, ps: seq<string>)
    requires start <= |s| && ps != []
    requires forall i :: 0 <= i < |ps| ==> d !in ps[i]
    requires s[start..] == Join(ps, [d])
    ensures PiecesFrom(s, d, start) == ps
    decreases |ps|
  {
    var w := ps[0];
    if |ps| == 1 {
      LastPiece(s, d, start, w);
      assert ps == [w];
    } else {
      var rest := ps[1..];
      var next := start + |w| + 1;
      assert next <= |s| && s[next..] == Join(rest, [d]) &&
             PiecesFrom(s, d, start) == [w] + PiecesFrom(s, d, next) by {
        JoinCons(w, rest, [d]);
        PieceThenRest(s, d, start, w, Join(rest, [d]));
      }
      PiecesFromJoin(s, d, next, rest);
      HeadTail(ps);
    }
  }

  /** A last piece without `d` is collected whole. */
  lemma LastPiece(s: string, d: char, start: nat, w: string)
    requires start <= |s| && s[start..] == w && d !in w
    ensures PiecesFrom(s, d, start) == [w]
  {
    assert s[start..start + |w|] == w;
    FindAfterPiece(s, d, start, w);
  }

  /** A piece `w` without `d`, then `d`, then the text `r`: `split` collects
      `w` and goes on at the start of `r`. */
  lemma PieceThenRest(s: string, d: char, start: nat, w: string, r: string)
    requires start <= |s| && s[start..] == w + [d] + r && d !in w
    ensures start + |w| < |s| && s[start + |w| + 1..] == r
    ensures PiecesFrom(s, d, start) == [w] + PiecesFrom(s, d, start + |w| + 1)
  {
    SuffixAround(s, start, w, d, r);
    PieceAt(s, d, start, w);
  }

  /** A piece `w` without `d`, followed by `d`, is collected, and `split`
      goes on after the `d`. */
  lemma PieceAt(s: string, d: char, start: nat, w: string)
    requires start + |w| < |s| && s[start..start + |w|] == w && s[start + |w|] == d && d !in w
    ensures PiecesFrom(s, d, start) == [w] + PiecesFrom(s, d, start + |w| + 1)
  {
    FindAfterPiece(s, d, start, w);
  }

  /** A suffix that is `w`, then `d`, then `r`, cut back into those parts. */
  lemma SuffixAround(s: string, start: nat, w: string, d: char, r: string)
    requires start <= |s| && s[start..] == w + [d] + r
    ensures start + |w| < |s| && s[start + |w|] == d
    ensures s[start..start + |w|] == w && s[start + |w| + 1..] == r
  {
    var u := w + [d] + r;
    assert u[..|w|] == w && u[|w|] == d && u[|w| + 1..] == r;
    assert s[start..start + |w|] == s[start..][..|w|];
    assert s[start + |w| + 1..] == s[start..][|w| + 1..];
  }

  /** After a piece `w` without `d`, the next `d` is where the piece ends,
      or there is none when the piece runs to the end. */
  lemma FindAfterPiece(s: string, d: char, start: nat, w: string)
    requires start + |w| <= |s| && s[start..start + |w|] == w && d !in w
    requires start + |w| < |s| ==> s[start + |w|] == d
    ensures FindFirstOf(s, [d], start) == start + |w|
  {
  }

  /** `split` inverts `join`: splitting pieces joined with `d` gives them
      back, when there is at least one piece and none holds `d`. */
  lemma PiecesOfJoin(ps: seq<string>, d: char)
    requires ps != []
    requires forall i :: 0 <= i < |ps| ==> d !in ps[i]
    ensures Pieces(Join(ps, [d]), d) == ps
  {
    var s := Join(ps, [d]);
    assert s[0..] == s;
    PiecesFromJoin(s, d, 0, ps);
  }

  /** Joining a first part before at least one more puts the separator
      after it. */
  lemma JoinCons(first: string, rest: seq<string>, sep: string)
    requires rest != []
    ensures Join([first] + rest, sep) == first + sep + Join(rest, sep)
  {
    var ps := [first] + rest;
    assert ps[0] == first && ps[1..] == rest;
  }

  /** `split(s, d)` cuts `s` at each of its delimiters: one piece more than
      there are delimiters, none containing it, and the pieces rejoined with
      the delimiter give `s` back. */
  lemma PiecesSpec(s: string, d: char)
    ensures |Pieces(s, d)| == multiset(s)[d] + 1
    ensures Join(Pieces(s, d), [d]) == s
  {
    PiecesFromCount(s, d, 0);
    JoinPiecesFrom(s, d, 0);
    assert s[0..] == s;
  }
}
