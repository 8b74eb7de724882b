/** Day 1: calibration values.  Each line contributes the two-digit number made of its
    first and its last digit; a line without a digit is an error (day01.py). */
module Day01 {
  import opened Common

  /** The position of the leftmost digit of `s` at or after `i`. */
  function FirstDigitFrom(s: string, i: nat): (k: Option<nat>)
    requires i <= |s|
    ensures k.Some? ==> i <= k.value < |s| && IsDigit(s[k.value]) && forall j :: i <= j < k.value ==> !IsDigit(s[j])
    ensures k.None? ==> forall j :: i <= j < |s| ==> !IsDigit(s[j])
    decreases |s| - i
  {
    if i == |s| then None else if IsDigit(s[i]) then Some(i) else FirstDigitFrom(s, i + 1)
  }

  /** The position of the leftmost digit of `s`. */
  function FirstDigitAt(s: string): Option<nat>
  {
    FirstDigitFrom(s, 0)
  }

  /** Reference definition: the position of the rightmost digit among the first `e`
      characters of `s`. */
  function LastDigitBefore(s: string, e: nat): (k: Option<nat>)
    requires e <= |s|
    ensures k.Some? ==> k.value < e && IsDigit(s[k.value]) && forall j :: k.value < j < e ==> !IsDigit(s[j])
    ensures k.None? ==> forall j :: 0 <= j < e ==> !IsDigit(s[j])
  {
    if e == 0 then None else if IsDigit(s[e - 1]) then Some(e - 1) else LastDigitBefore(s, e - 1)
  }

  /** Scanning `line[::-1]` from the left finds the rightmost digit of `line`. */
  lemma FirstOfReverse(s: string)
    ensures FirstDigitAt(Reverse(s)).None? <==> LastDigitBefore(s, |s|).None?
    ensures FirstDigitAt(Reverse(s)).Some? ==> LastDigitBefore(s, |s|) == Some(|s| - 1 - FirstDigitAt(Reverse(s)).value)
  {
    var r := Reverse(s);
    var a, b := FirstDigitAt(r), LastDigitBefore(s, |s|);
    if b.Some? {
      assert r[|s| - 1 - b.value] == s[b.value];
    }
    if a.Some? {
      assert IsDigit(s[|s| - 1 - a.value]);
    }
  }

  /** One line as `solve` reads it: the first digit of the line and the first digit of
      the reversed line, as a two-digit number. */
  function LineValue(line: string): (v: Result<nat>)
    ensures v.Err? ==> v.fault == ValueError
    ensures v.Ok? ==> v.value <= 99
  {
    match FirstDigitAt(line)
    case None => Err(ValueError)
    case Some(i) =>
      match FirstDigitAt(Reverse(line))
      case None => Err(ValueError)
      case Some(j) => Ok(10 * DigitValue(line[i]) + DigitValue(Reverse(line)[j]))
  }

  /** A line fails exactly when it has no digit; otherwise its value is ten times its
      leftmost digit plus its rightmost one. */
  lemma LineValueSpec(line: string)
    ensures LineValue(line).Err? <==> forall j :: 0 <= j < |line| ==> !IsDigit(line[j])
    ensures LineValue(line).Ok? ==>
              var i, k := FirstDigitAt(line).value, LastDigitBefore(line, |line|).value;
              LineValue(line).value == 10 * DigitValue(line[i]) + DigitValue(line[k])
  {
    FirstOfReverse(line);
    if FirstDigitAt(line).Some? {
      assert LastDigitBefore(line, |line|).Some?;
    }
  }

  /** Reference definition of a line's value: its leftmost digit and its rightmost. */
  function RefValue(line: string): (v: Result<nat>)
  {
    match FirstDigitAt(line)
    case None => Err(ValueError)
    case Some(i) => Ok(10 * DigitValue(line[i]) + DigitValue(line[LastDigitBefore(line, |line|).value]))
  }

  lemma LineValueRef(line: string)
    ensures LineValue(line) == RefValue(line)
  {
    LineValueSpec(line);
  }

  /** A line with a single digit `d` contributes `11 * d`. */
  lemma SingleDigitLine(line: string, i: nat)
    requires i < |line| && IsDigit(line[i]) && forall j :: 0 <= j < |line| && j != i ==> !IsDigit(line[j])
    ensures LineValue(line) == Ok(11 * DigitValue(line[i]))
  {
    LineValueSpec(line);
  }

  function LineValues(lines: seq<string>): (vs: seq<Result<int>>)
    ensures |vs| == |lines| && forall k :: 0 <= k < |lines| ==> vs[k] == match LineValue(lines[k]) case Ok(v) => Ok(v) case Err(f) => Err(f)
  {
    seq(|lines|, k requires 0 <= k < |lines| => match LineValue(lines[k]) case Ok(v) => Ok(v) case Err(f) => Err(f))
  }

  /** The answer: the sum of the line values, or the error of the first bad line. */
  function Total(lines: seq<string>): Result<int>
  {
    SumResults(LineValues(lines))
  }

  /** The body of the loop of `solve` on one line: the two scanned digits as text. */
  lemma LineFromScans(line: string)
    ensures FirstDigitAt(line).None? || FirstDigitAt(Reverse(line)).None? <==> LineValue(line).Err?
    ensures FirstDigitAt(line).Some? && FirstDigitAt(Reverse(line)).Some? ==>
              var (a, b) := (line[FirstDigitAt(line).value], Reverse(line)[FirstDigitAt(Reverse(line)).value]);
              IsDigit(a) && IsDigit(b) && LineValue(line) == Ok(Decimal([a, b]))
  {
    var i, j := FirstDigitAt(line), FirstDigitAt(Reverse(line));
    if i.Some? && j.Some? {
      DecimalTwoDigits(line[i.value], Reverse(line)[j.value]);
    }
  }

  /** The `for c in line ... break ... else raise` scan. */
  method ScanFirst(s: string) returns (c: Option<char>)
    ensures c == match FirstDigitAt(s) case None => None case Some(i) => Some(s[i])
  {
    for i := 0 to |s|
      invariant forall j :: 0 <= j < i ==> !IsDigit(s[j])
    {
      if IsDigit(s[i]) {
        return Some(s[i]);
      }
    }
    return None;
  }

  /** `solve`. */
  method Solve(lines: seq<string>) returns (res: Result<int>)
    ensures res == Total(lines)
  {
    ghost var vs := LineValues(lines);
    var total := 0;
    for k := 0 to |lines|
      invariant SumResults(vs[..k]) == Ok(total)
    {
      var line := lines[k];
      SumResultsStep(vs, k);
      LineFromScans(line);
      var first := ScanFirst(line);
      if first.None? {
        SumResultsFailedPrefix(vs, k + 1);
        return Err(ValueError);
      }
      var last := ScanFirst(Reverse(line));
      if last.None? {
        SumResultsFailedPrefix(vs, k + 1);
        return Err(ValueError);
      }
      total := total + Decimal([first.value, last.value]);
    }
    assert vs[..|lines|] == vs;
    return Ok(total);
  }
}
