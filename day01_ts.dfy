/** Day 1 in TypeScript.  Part 1 takes the first match of `/\d/` in the line and in
    the reversed line.  Part 2 also accepts the names "one" .. "nine": the forward
    expression is `\d|one|two|...|nine`, and the backward one, searched in the reversed
    line, is `\d` followed by the reversal of the joined names, so its alternatives are
    the reversed names in reverse order. */
module Day01Ts {
  import opened Common
  import Day01

  // ------------------------------------------------------------ part 1

  /** `line.match(/\d/)[0]`: the text of the leftmost digit. */
  function MatchDigit(s: string): (m: Option<string>)
    ensures m.Some? ==> |m.value| == 1 && IsDigit(m.value[0])
  {
    match Day01.FirstDigitAt(s)
    case None => None
    case Some(i) => Some(s[i..i + 1])
  }

  /** A line read through the two matches of `/\d/`: the value Python computes. */
  lemma MatchLine(line: string)
    ensures MatchDigit(line).None? || MatchDigit(Reverse(line)).None? <==> Day01.LineValue(line).Err?
    ensures MatchDigit(line).Some? && MatchDigit(Reverse(line)).Some? ==>
              AllDigits(MatchDigit(line).value + MatchDigit(Reverse(line)).value) &&
              Day01.LineValue(line) == Ok(Decimal(MatchDigit(line).value + MatchDigit(Reverse(line)).value))
  {
    var a, b := MatchDigit(line), MatchDigit(Reverse(line));
    if a.Some? && b.Some? {
      var text := a.value + b.value;
      assert text == [a.value[0], b.value[0]];
      DecimalTwoDigits(a.value[0], b.value[0]);
    }
  }

  /** `solve1`: the same calibration values as the Python solver. */
  method Solve1(lines: seq<string>) returns (res: Result<int>)
    ensures res == Day01.Total(lines)
  {
    ghost var vs := Day01.LineValues(lines);
    var total := 0;
    for k := 0 to |lines|
      invariant SumResults(vs[..k]) == Ok(total)
    {
      var line := lines[k];
      SumResultsStep(vs, k);
      MatchLine(line);
      var firstMatch := MatchDigit(line);
      var lastMatch := MatchDigit(Reverse(line));
      if firstMatch.None? || lastMatch.None? {
        SumResultsFailedPrefix(vs, k + 1);
        return Err(ValueError);
      }
      total := total + Decimal(firstMatch.value + lastMatch.value);
    }
    assert vs[..|lines|] == vs;
    return Ok(total);
  }

  // ------------------------------------------------------------ digit names

  /** The key of `DIGITS_BY_NAME` for digit `k`. */
  function Name(k: nat): (w: string)
    requires 1 <= k <= 9
    ensures |w| >= 3 && !IsDigit(w[0]) && 'a' <= w[0] <= 'z'
  {
    if k == 1 then "one" else if k == 2 then "two" else if k == 3 then "three"
    else if k == 4 then "four" else if k == 5 then "five" else if k == 6 then "six"
    else if k == 7 then "seven" else if k == 8 then "eight" else "nine"
  }

  /** The first key from `k` on that equals `num`. */
  function NameIndexFrom(num: string, k: nat): (i: Option<nat>)
    requires 1 <= k
    ensures i.Some? ==> k <= i.value <= 9 && Name(i.value) == num
    ensures i.None? ==> forall j :: k <= j <= 9 ==> Name(j) != num
    decreases 10 - k
  {
    if k > 9 then None else if Name(k) == num then Some(k) else NameIndexFrom(num, k + 1)
  }

  /** The nine keys are different words. */
  lemma NamesDistinct(a: nat, b: nat)
    requires 1 <= a <= 9 && 1 <= b <= 9 && Name(a) == Name(b)
    ensures a == b
  {
    var w := Name(a);
    assert w[0] == Name(b)[0] && |w| == |Name(b)|;
    if w[0] == 't' || w[0] == 'f' || w[0] == 's' {
      assert w[1] == Name(b)[1];
    }
  }

  /** `toDigit`: a string of digits unchanged, a name replaced by its digit, and
      `undefined` for any other string.  Keys that every object inherits from
      `Object.prototype` ("constructor", "toString", ...) are not modelled: the lookup
      would return that member rather than `undefined`. */
  function ToDigit(num: string): (d: Option<string>)
  {
    if |num| > 0 && AllDigits(num) then Some(num)
    else
      match NameIndexFrom(num, 1)
      case None => None
      case Some(k) => Some([DigitChar(k)])
  }

  lemma ToDigitDigits(num: string)
    requires |num| > 0 && AllDigits(num)
    ensures ToDigit(num) == Some(num)
  {
  }

  lemma ToDigitName(k: nat)
    requires 1 <= k <= 9
    ensures ToDigit(Name(k)) == Some([DigitChar(k)])
  {
    var i := NameIndexFrom(Name(k), 1);
    assert i.Some?;
    NamesDistinct(i.value, k);
  }

  // ------------------------------------------------------------ part 2

  /** The words of the forward expression `\d|one|two|...|nine`. */
  function Forward(): (ws: seq<string>)
    ensures |ws| == 9 && LetterWords(ws) && forall p :: 0 <= p < 9 ==> ws[p] == Name(p + 1)
  {
    seq(9, i requires 0 <= i < 9 => Name(i + 1))
  }

  /** The names in the order the backward expression tries them: nine first. */
  function Mirrored(): (ws: seq<string>)
    ensures |ws| == 9 && LetterWords(ws) && forall p :: 0 <= p < 9 ==> ws[p] == Name(9 - p)
  {
    seq(9, i requires 0 <= i < 9 => Name(9 - i))
  }

  /** Each word reversed. */
  function RevAll(ws: seq<string>): (rs: seq<string>)
    ensures |rs| == |ws|
  {
    seq(|ws|, i requires 0 <= i < |ws| => Reverse(ws[i]))
  }

  /** The words of the backward expression `\d|enin|thgie|...|eno`: reversing the joined
      alternation reverses both the order of the names and each name. */
  function Backward(): seq<string>
  {
    RevAll(Mirrored())
  }

  /** The first of the words `ws[p..]` that occurs at `pos`. */
  function WordAt(s: string, pos: nat, ws: seq<string>, p: nat): (m: Option<nat>)
    requires p <= |ws|
    ensures m.Some? ==> p <= m.value < |ws| && pos + |ws[m.value]| <= |s| && s[pos..pos + |ws[m.value]|] == ws[m.value]
    decreases |ws| - p
  {
    if p == |ws| then None
    else
      var w := ws[p];
      if pos + |w| <= |s| && s[pos..pos + |w|] == w then Some(p) else WordAt(s, pos, ws, p + 1)
  }

  /** A text the expression `\d|ws[0]|ws[1]|...` can match. */
  predicate Matchable(m: string, ws: seq<string>)
  {
    (|m| == 1 && IsDigit(m[0])) || m in ws
  }

  /** The text `\d|ws[0]|ws[1]|...` matches at `pos`, if any; `\d` is tried first. */
  function AltAt(s: string, pos: nat, ws: seq<string>): (m: Option<string>)
    requires pos < |s|
    ensures m.Some? ==> Matchable(m.value, ws)
  {
    if IsDigit(s[pos]) then Some(s[pos..pos + 1])
    else
      match WordAt(s, pos, ws, 0)
      case None => None
      case Some(p) => Some(ws[p])
  }

  /** `s.match(\d|ws[0]|...)` from `pos` on: the match at the leftmost position. */
  function Search(s: string, pos: nat, ws: seq<string>): (m: Option<string>)
    requires pos <= |s|
    ensures m.Some? ==> Matchable(m.value, ws)
    decreases |s| - pos
  {
    if pos == |s| then None
    else
      match AltAt(s, pos, ws)
      case Some(m) => Some(m)
      case None => Search(s, pos + 1, ws)
  }

  // Reference definition of the last match: among the end positions from the right,
  // the first at which a digit or one of the words ends.

  function WordBefore(s: string, e: nat, ws: seq<string>, p: nat): (m: Option<nat>)
    requires e <= |s| && p <= |ws|
    ensures m.Some? ==> p <= m.value < |ws| && |ws[m.value]| <= e && s[e - |ws[m.value]|..e] == ws[m.value]
    decreases |ws| - p
  {
    if p == |ws| then None
    else
      var w := ws[p];
      if |w| <= e && s[e - |w|..e] == w then Some(p) else WordBefore(s, e, ws, p + 1)
  }

  function AltBefore(s: string, e: nat, ws: seq<string>): (m: Option<string>)
    requires 0 < e <= |s|
    ensures m.Some? ==> Matchable(m.value, ws)
  {
    if IsDigit(s[e - 1]) then Some(s[e - 1..e])
    else
      match WordBefore(s, e, ws, 0)
      case None => None
      case Some(p) => Some(ws[p])
  }

  /** The match that ends rightmost among the first `e` characters of `s`. */
  function LastMatch(s: string, e: nat, ws: seq<string>): (m: Option<string>)
    requires e <= |s|
    ensures m.Some? ==> Matchable(m.value, ws)
  {
    if e == 0 then None
    else
      match AltBefore(s, e, ws)
      case Some(m) => Some(m)
      case None => LastMatch(s, e - 1, ws)
  }

  /** A reversed word occurs in the reversed line exactly where the word ends in the line. */
  lemma WordMirror(s: string, pos: nat, w: string)
    requires pos <= |s|
    ensures (pos + |w| <= |s| && Reverse(s)[pos..pos + |w|] == Reverse(w)) <==>
            (|w| <= |s| - pos && s[|s| - pos - |w|..|s| - pos] == w)
  {
    if pos + |w| <= |s| {
      ReverseSlice(s, pos, pos + |w|);
      ReverseReverse(w);
      ReverseReverse(s[|s| - pos - |w|..|s| - pos]);
    }
  }

  lemma {:induction false} WordAtMirror(s: string, pos: nat, ws: seq<string>, p: nat)
    requires pos <= |s| && p <= |ws|
    ensures WordAt(Reverse(s), pos, RevAll(ws), p) == WordBefore(s, |s| - pos, ws, p)
    decreases |ws| - p
  {
    if p < |ws| {
      WordMirror(s, pos, ws[p]);
      WordAtMirror(s, pos, ws, p + 1);
    }
  }

  lemma AltMirror(s: string, pos: nat, ws: seq<string>)
    requires pos < |s|
    ensures AltAt(Reverse(s), pos, RevAll(ws)).None? <==> AltBefore(s, |s| - pos, ws).None?
    ensures AltAt(Reverse(s), pos, RevAll(ws)).Some? ==>
              AltBefore(s, |s| - pos, ws) == Some(Reverse(AltAt(Reverse(s), pos, RevAll(ws)).value))
  {
    var r := Reverse(s);
    WordAtMirror(s, pos, ws, 0);
    assert r[pos] == s[|s| - pos - 1];
    if IsDigit(r[pos]) {
      assert Reverse(r[pos..pos + 1]) == s[|s| - pos - 1..|s| - pos];
    } else {
      var p := WordAt(r, pos, RevAll(ws), 0);
      if p.Some? {
        ReverseReverse(ws[p.value]);
      }
    }
  }

  /** The backward search in the reversed line, read forwards again, finds the match
      that ends rightmost in the line. */
  lemma {:induction false} SearchMirror(s: string, pos: nat, ws: seq<string>)
    requires pos <= |s|
    ensures Search(Reverse(s), pos, RevAll(ws)).None? <==> LastMatch(s, |s| - pos, ws).None?
    ensures Search(Reverse(s), pos, RevAll(ws)).Some? ==>
              LastMatch(s, |s| - pos, ws) == Some(Reverse(Search(Reverse(s), pos, RevAll(ws)).value))
    decreases |s| - pos
  {
    if pos < |s| {
      AltMirror(s, pos, ws);
      SearchMirror(s, pos + 1, ws);
    }
  }

  /** A text `toDigit` turns into one digit: a digit, or a key of `DIGITS_BY_NAME`. */
  predicate DigitText(m: string)
  {
    match ToDigit(m)
    case None => false
    case Some(d) => |d| == 1 && IsDigit(d[0])
  }

  /** Words that `toDigit` all turns into digits. */
  predicate NameWords(ws: seq<string>)
  {
    forall p {:trigger DigitText(ws[p])} :: 0 <= p < |ws| ==> DigitText(ws[p])
  }

  lemma ForwardNames()
    ensures NameWords(Forward())
  {
    forall p | 0 <= p < 9
      ensures DigitText(Forward()[p])
    {
      ToDigitName(p + 1);
    }
  }

  lemma MirroredNames()
    ensures NameWords(Mirrored())
  {
    forall p | 0 <= p < 9
      ensures DigitText(Mirrored()[p])
    {
      ToDigitName(9 - p);
    }
  }

  lemma NamesText(m: string, ws: seq<string>)
    requires NameWords(ws) && Matchable(m, ws)
    ensures DigitText(m)
  {
    if m !in ws {
      ToDigitDigits(m);
    }
  }

  /** The digit a match stands for. */
  function TextValue(m: string): (d: nat)
    requires DigitText(m)
    ensures d <= 9 && ToDigit(m) == Some([DigitChar(d)])
  {
    var c := ToDigit(m).value[0];
    assert [DigitChar(DigitValue(c))] == ToDigit(m).value;
    DigitValue(c)
  }

  /** One line of `solve2`: the leftmost forward match, and the rightmost match, which
      the backward search in the reversed line finds, as a two-digit number. */
  function LineValue(line: string): (v: Result<nat>)
    ensures v.Ok? ==> v.value <= 99
  {
    ForwardNames();
    MirroredNames();
    LineValueWith(line, Forward(), Mirrored())
  }

  /** `LineValue` for any forward words `fw` and backward words `mw`, read forwards. */
  function LineValueWith(line: string, fw: seq<string>, mw: seq<string>): (v: Result<nat>)
    requires NameWords(fw) && NameWords(mw)
    ensures v.Ok? ==> v.value <= 99
  {
    match Search(line, 0, fw)
    case None => Err(ValueError)
    case Some(first) =>
      match LastMatch(line, |line|, mw)
      case None => Err(ValueError)
      case Some(last) =>
        NamesText(first, fw);
        NamesText(last, mw);
        Ok(PairValue(first, last))
  }

  /** The two-digit number of a first and a last match. */
  function PairValue(first: string, last: string): (v: nat)
    requires DigitText(first) && DigitText(last)
    ensures v <= 99
  {
    10 * TextValue(first) + TextValue(last)
  }

  /** `parseInt(toDigit(first) + toDigit(last))` is that number. */
  lemma PairDecimal(first: string, last: string)
    requires DigitText(first) && DigitText(last)
    ensures ToDigit(first).Some? && ToDigit(last).Some? && AllDigits(ToDigit(first).value + ToDigit(last).value)
    ensures Decimal(ToDigit(first).value + ToDigit(last).value) == PairValue(first, last)
  {
    var (x, y) := (TextValue(first), TextValue(last));
    assert ToDigit(first).value + ToDigit(last).value == [DigitChar(x), DigitChar(y)];
    DecimalTwoDigits(DigitChar(x), DigitChar(y));
  }

  function LineValues(lines: seq<string>): (vs: seq<Result<int>>)
    ensures |vs| == |lines| && forall k :: 0 <= k < |lines| ==> vs[k] == match LineValue(lines[k]) case Ok(v) => Ok(v) case Err(f) => Err(f)
  {
    ForwardNames();
    MirroredNames();
    LineValuesAll(lines, Forward(), Mirrored());
    LineValuesWith(lines, Forward(), Mirrored())
  }

  /** The line values for any alternations `fw` and `mw` of digit names. */
  function LineValuesWith(lines: seq<string>, fw: seq<string>, mw: seq<string>): (vs: seq<Result<int>>)
    requires NameWords(fw) && NameWords(mw)
    ensures |vs| == |lines|
  {
    if lines == [] then []
    else LineValuesWith(lines[..|lines| - 1], fw, mw) + [LineResult(lines[|lines| - 1], fw, mw)]
  }

  /** The value of one line, as an entry of the sum. */
  function LineResult(line: string, fw: seq<string>, mw: seq<string>): (v: Result<int>)
    requires NameWords(fw) && NameWords(mw)
    ensures v.Ok? <==> LineValueWith(line, fw, mw).Ok?
  {
    match LineValueWith(line, fw, mw)
    case Ok(x) => Ok(x)
    case Err(f) => Err(f)
  }

  /** Entry `k` of the line values is the value of line `k`. */
  lemma {:induction false} LineValuesAt(lines: seq<string>, fw: seq<string>, mw: seq<string>, k: nat)
    requires NameWords(fw) && NameWords(mw) && k < |lines|
    ensures LineValuesWith(lines, fw, mw)[k] == LineResult(lines[k], fw, mw)
    decreases |lines|
  {
    var init := lines[..|lines| - 1];
    if k < |lines| - 1 {
      LineValuesAt(init, fw, mw, k);
      assert init[k] == lines[k];
    }
  }

  lemma LineValuesAll(lines: seq<string>, fw: seq<string>, mw: seq<string>)
    requires NameWords(fw) && NameWords(mw)
    ensures forall k :: 0 <= k < |lines| ==> LineValuesWith(lines, fw, mw)[k] == LineResult(lines[k], fw, mw)
  {
    forall k | 0 <= k < |lines|
      ensures LineValuesWith(lines, fw, mw)[k] == LineResult(lines[k], fw, mw)
    {
      LineValuesAt(lines, fw, mw, k);
    }
  }

  /** The answer of part 2. */
  function Total2(lines: seq<string>): Result<int>
  {
    SumResults(LineValues(lines))
  }

  /** The body of the loop of `solve2` on one line, for any alternations `fw` and `mw`
      of digit names searched forwards and backwards: the backward match, reversed back,
      is the rightmost match, and `parseInt` of the two digits gives the line's value. */
  lemma LineStep(line: string, fw: seq<string>, mw: seq<string>)
    requires NameWords(fw) && NameWords(mw)
    ensures Search(line, 0, fw).None? || Search(Reverse(line), 0, RevAll(mw)).None? <==> LineValueWith(line, fw, mw).Err?
    ensures Search(line, 0, fw).Some? && Search(Reverse(line), 0, RevAll(mw)).Some? ==>
              var (first, last) := (Search(line, 0, fw).value, Reverse(Search(Reverse(line), 0, RevAll(mw)).value));
              DigitText(first) && DigitText(last) && ToDigit(first).Some? && ToDigit(last).Some? &&
              AllDigits(ToDigit(first).value + ToDigit(last).value) &&
              LineValueWith(line, fw, mw) == Ok(Decimal(ToDigit(first).value + ToDigit(last).value))
  {
    SearchMirror(line, 0, mw);
    var f, b := Search(line, 0, fw), Search(Reverse(line), 0, RevAll(mw));
    if f.Some? && b.Some? {
      var (first, last) := (f.value, Reverse(b.value));
      assert LastMatch(line, |line|, mw) == Some(last);
      NamesText(first, fw);
      NamesText(last, mw);
      assert LineValueWith(line, fw, mw) == Ok(PairValue(first, last));
      PairDecimal(first, last);
    }
  }

  /** A text `toDigit` turns into a digit is not empty. */
  lemma DigitTextNonEmpty(m: string)
    requires DigitText(m)
    ensures m != ""
  {
  }

  /** A line that holds no lower-case letter. */
  predicate NoLetters(s: string)
  {
    forall i :: 0 <= i < |s| ==> !('a' <= s[i] <= 'z')
  }

  /** Words that start with a lower-case letter. */
  predicate LetterWords(ws: seq<string>)
  {
    forall p :: 0 <= p < |ws| ==> |ws[p]| > 0 && 'a' <= ws[p][0] <= 'z'
  }

  lemma {:induction false} SearchDigitsOnly(s: string, pos: nat, ws: seq<string>)
    requires pos <= |s| && NoLetters(s) && LetterWords(ws)
    ensures Search(s, pos, ws) == match Day01.FirstDigitFrom(s, pos) case None => None case Some(i) => Some(s[i..i + 1])
    decreases |s| - pos
  {
    if pos < |s| {
      SearchDigitsOnly(s, pos + 1, ws);
    }
  }

  lemma {:induction false} LastDigitsOnly(s: string, e: nat, ws: seq<string>)
    requires e <= |s| && NoLetters(s) && LetterWords(ws)
    ensures LastMatch(s, e, ws) == match Day01.LastDigitBefore(s, e) case None => None case Some(i) => Some(s[i..i + 1])
  {
    if e > 0 {
      LastDigitsOnly(s, e - 1, ws);
    }
  }

  /** On a line without letters no name can match, and part 2 reads the line exactly as
      part 1 does. */
  lemma DigitsOnlyLine(line: string)
    requires NoLetters(line)
    ensures LineValue(line) == Day01.LineValue(line)
  {
    DigitsOnlyRef(line);
    Day01.LineValueRef(line);
  }

  lemma DigitsOnlyRef(line: string)
    requires NoLetters(line)
    ensures LineValue(line) == Day01.RefValue(line)
  {
    ForwardNames();
    MirroredNames();
    DigitsOnlyWith(line, Forward(), Mirrored());
  }

  lemma DigitsOnlyWith(line: string, fw: seq<string>, mw: seq<string>)
    requires NoLetters(line) && NameWords(fw) && NameWords(mw) && LetterWords(fw) && LetterWords(mw)
    ensures LineValueWith(line, fw, mw) == Day01.RefValue(line)
  {
    SearchDigitsOnly(line, 0, fw);
    LastDigitsOnly(line, |line|, mw);
    var i, k := Day01.FirstDigitAt(line), Day01.LastDigitBefore(line, |line|);
    if i.Some? {
      assert k.Some? by {
        assert IsDigit(line[i.value]);
      }
      DigitPair(line, fw, mw, i.value, k.value);
    }
  }

  lemma DigitPair(line: string, fw: seq<string>, mw: seq<string>, i: nat, k: nat)
    requires NameWords(fw) && NameWords(mw) && i < |line| && k < |line| && IsDigit(line[i]) && IsDigit(line[k])
    requires Search(line, 0, fw) == Some(line[i..i + 1]) && LastMatch(line, |line|, mw) == Some(line[k..k + 1])
    ensures LineValueWith(line, fw, mw) == Ok(10 * DigitValue(line[i]) + DigitValue(line[k]))
  {
    TextValueDigit(line[i..i + 1]);
    TextValueDigit(line[k..k + 1]);
  }

  lemma TextValueDigit(m: string)
    requires |m| == 1 && IsDigit(m[0])
    ensures DigitText(m) && TextValue(m) == DigitValue(m[0])
  {
    ToDigitDigits(m);
  }

  /** Entry `k` of the line values, as the loop of `solve2` computes it. */
  lemma LineEntry(lines: seq<string>, k: nat, fw: seq<string>, mw: seq<string>)
    requires k < |lines| && NameWords(fw) && NameWords(mw)
    ensures var line := lines[k];
            Search(line, 0, fw).None? || Search(Reverse(line), 0, RevAll(mw)).None? ==> LineValuesWith(lines, fw, mw)[k] == Err(ValueError)
    ensures var line := lines[k];
            Search(line, 0, fw).Some? && Search(Reverse(line), 0, RevAll(mw)).Some? ==>
              var (first, last) := (Search(line, 0, fw).value, Reverse(Search(Reverse(line), 0, RevAll(mw)).value));
              first != "" && last != "" && ToDigit(first).Some? && ToDigit(last).Some? &&
              AllDigits(ToDigit(first).value + ToDigit(last).value) &&
              LineValuesWith(lines, fw, mw)[k] == Ok(Decimal(ToDigit(first).value + ToDigit(last).value))
  {
    var line := lines[k];
    LineValuesAt(lines, fw, mw, k);
    LineStep(line, fw, mw);
    if Search(line, 0, fw).Some? && Search(Reverse(line), 0, RevAll(mw)).Some? {
      DigitTextNonEmpty(Search(line, 0, fw).value);
      DigitTextNonEmpty(Reverse(Search(Reverse(line), 0, RevAll(mw)).value));
    }
  }

  /** The body of the loop of `solve2` on line `k`, with the forward expression `fw` and
      the backward one `bw`: the two matches, converted by `toDigit`, read as a two-digit
      number; a missing match throws.  The result extends the running total of the
      earlier lines, or ends it. */
  method LineTotal(lines: seq<string>, k: nat, fw: seq<string>, bw: seq<string>, ghost mw: seq<string>,
                   ghost vs: seq<Result<int>>, total: int) returns (v: Result<int>)
    requires NameWords(fw) && NameWords(mw) && bw == RevAll(mw)
    requires k < |lines| && vs == LineValuesWith(lines, fw, mw) && SumResults(vs[..k]) == Ok(total)
    ensures v.Err? ==> SumResults(vs) == v
    ensures v.Ok? ==> SumResults(vs[..k + 1]) == Ok(total + v.value)
  {
    var line := lines[k];
    LineEntry(lines, k, fw, mw);
    var firstMatch := Search(line, 0, fw);
    var lastMatch := Search(Reverse(line), 0, bw);
    if firstMatch.None? || lastMatch.None? {
      SumResultsErr(vs, k, total);
      return Err(ValueError);
    }
    var first := firstMatch.value;
    var last := Reverse(lastMatch.value);
    v := Ok(Decimal(ToDigit(first).value + ToDigit(last).value));
    SumResultsOk(vs, k, total);
  }

  /** `solve2`. */
  method Solve2(lines: seq<string>) returns (res: Result<int>)
    ensures res == Total2(lines)
  {
    var fw, bw := Forward(), Backward();
    ghost var mw := Mirrored();
    ForwardNames();
    MirroredNames();
    ghost var vs := LineValuesWith(lines, fw, mw);
    assert vs == LineValues(lines);
    var total := 0;
    for k := 0 to |lines|
      invariant SumResults(vs[..k]) == Ok(total)
    {
      var v := LineTotal(lines, k, fw, bw, mw, vs, total);
      if v.Err? {
        return v;
      }
      total := total + v.value;
    }
    assert vs[..|lines|] == vs;
    return Ok(total);
  }
}
