/** Day 1 in Kotlin.  The regular expressions are those of the TypeScript solver; a line
    without a match ends the program at `!!`, and `toDigit` returns any all-digit string
    unchanged (the empty string included) and fails at `!!` on any other string that is
    not a key of `digitsByName`. */
module Day01Kt {
  import opened Common
  import Day01
  import Day01Ts

  /** A failed line becomes the failure of `!!` on a missing match. */
  function AtBang(r: Result<int>): (t: Result<int>)
    ensures t.Ok? <==> r.Ok?
    ensures r.Ok? ==> t == r
    ensures t.Err? ==> t.fault == NoMatch
  {
    match r
    case Ok(v) => Ok(v)
    case Err(_) => Err(NoMatch)
  }

  /** `solve1`: the Python calibration total, the first failing line stopping at `!!`. */
  method Solve1(input: seq<string>) returns (res: Result<int>)
    ensures res == AtBang(Day01.Total(input))
  {
    ghost var vs := Day01.LineValues(input);
    var total := 0;
    for k := 0 to |input|
      invariant SumResults(vs[..k]) == Ok(total)
    {
      var line := input[k];
      SumResultsStep(vs, k);
      Day01Ts.MatchLine(line);
      var first := Day01Ts.MatchDigit(line);
      if first.None? {
        SumResultsFailedPrefix(vs, k + 1);
        return Err(NoMatch);
      }
      var last := Day01Ts.MatchDigit(Reverse(line));
      if last.None? {
        SumResultsFailedPrefix(vs, k + 1);
        return Err(NoMatch);
      }
      total := total + Decimal(first.value + last.value);
    }
    assert vs[..|input|] == vs;
    return Ok(total);
  }

  /** `toDigit`: `all { isDigit }` holds of the empty string as well. */
  function ToDigit(num: string): (d: Result<string>)
    ensures d.Err? ==> d.fault == KeyError
  {
    if AllDigits(num) then Ok(num)
    else
      match Day01Ts.NameIndexFrom(num, 1)
      case None => Err(KeyError)
      case Some(k) => Ok([DigitChar(k)])
  }

  /** On every string but the empty one, `toDigit` agrees with the TypeScript version,
      its `!!` failing where that one returns `undefined`. */
  lemma ToDigitAgrees(num: string)
    requires num != ""
    ensures ToDigit(num).Ok? <==> Day01Ts.ToDigit(num).Some?
    ensures ToDigit(num).Ok? ==> ToDigit(num).value == Day01Ts.ToDigit(num).value
  {
  }

  /** The empty string is where the two differ: Kotlin returns it, TypeScript does not. */
  lemma ToDigitEmpty()
    ensures ToDigit("") == Ok("") && Day01Ts.ToDigit("") == None
  {
    assert Day01Ts.NameIndexFrom("", 1).None?;
  }

  /** The body of the loop of `solve2` on line `k`, with the forward expression `fw` and
      the backward one `bw`: a missing match fails at `!!`, and the two matches are
      looked up by `toDigit` and read as a two-digit number.  The result extends the
      running total of the earlier lines, or ends it. */
  method LineTotal(input: seq<string>, k: nat, fw: seq<string>, bw: seq<string>, ghost mw: seq<string>,
                   ghost vs: seq<Result<int>>, total: int) returns (v: Result<int>)
    requires Day01Ts.NameWords(fw) && Day01Ts.NameWords(mw) && bw == Day01Ts.RevAll(mw)
    requires k < |input| && vs == Day01Ts.LineValuesWith(input, fw, mw) && SumResults(vs[..k]) == Ok(total)
    ensures v.Err? ==> AtBang(SumResults(vs)) == v
    ensures v.Ok? ==> SumResults(vs[..k + 1]) == Ok(total + v.value)
  {
    var line := input[k];
    Day01Ts.LineEntry(input, k, fw, mw);
    var firstMatch := Day01Ts.Search(line, 0, fw);
    if firstMatch.None? {
      SumResultsErr(vs, k, total);
      return Err(NoMatch);
    }
    var lastMatch := Day01Ts.Search(Reverse(line), 0, bw);
    if lastMatch.None? {
      SumResultsErr(vs, k, total);
      return Err(NoMatch);
    }
    var first := firstMatch.value;
    var last := Reverse(lastMatch.value);
    ToDigitAgrees(first);
    ToDigitAgrees(last);
    var a := ToDigit(first);
    var b := ToDigit(last);
    v := Ok(Decimal(a.value + b.value));
    SumResultsOk(vs, k, total);
  }

  /** `solve2`: the TypeScript part-2 total, the first failing line stopping at `!!`. */
  method Solve2(input: seq<string>) returns (res: Result<int>)
    ensures res == AtBang(Day01Ts.Total2(input))
  {
    var fw, bw := Day01Ts.Forward(), Day01Ts.Backward();
    ghost var mw := Day01Ts.Mirrored();
    Day01Ts.ForwardNames();
    Day01Ts.MirroredNames();
    ghost var vs := Day01Ts.LineValuesWith(input, fw, mw);
    assert vs == Day01Ts.LineValues(input);
    var total := 0;
    for k := 0 to |input|
      invariant SumResults(vs[..k]) == Ok(total)
    {
      var v := LineTotal(input, k, fw, bw, mw, vs, total);
      if v.Err? {
        return v;
      }
      total := total + v.value;
    }
    assert vs[..|input|] == vs;
    return Ok(total);
  }
}
