/** Day 15: the HASH algorithm on initialisation steps (day15.py). */
module Day15 {
  import opened Common

  /** Reference definition: fold the characters from the left, starting at `acc`. */
  function HashFrom(acc: int, s: string): int
    decreases |s|
  {
    if s == [] then acc else HashFrom(((acc + (s[0] as int)) * 17) % 256, s[1..])
  }

  function Hash(s: string): int
  {
    HashFrom(0, s)
  }

  lemma {:induction false} HashFromRange(acc: int, s: string)
    requires 0 <= acc < 256
    ensures 0 <= HashFrom(acc, s) < 256
    decreases |s|
  {
    if s != [] {
      HashFromRange(((acc + (s[0] as int)) * 17) % 256, s[1..]);
    }
  }

  lemma HashRange(s: string)
    ensures 0 <= Hash(s) <= 255
  {
    HashFromRange(0, s);
  }

  lemma HashEmpty()
    ensures Hash("") == 0
  {
  }

  lemma {:induction false} HashFromSnoc(acc: int, s: string, c: char)
    ensures HashFrom(acc, s + [c]) == ((HashFrom(acc, s) + (c as int)) * 17) % 256
    decreases |s|
  {
    if s == [] {
      assert s + [c] == [c];
    } else {
      assert (s + [c])[1..] == s[1..] + [c];
      HashFromSnoc(((acc + (s[0] as int)) * 17) % 256, s[1..], c);
    }
  }

  /** The fold law: appending a character adds its code, multiplies by 17 and reduces mod 256. */
  lemma HashSnoc(s: string, c: char)
    ensures Hash(s + [c]) == ((Hash(s) + (c as int)) * 17) % 256
  {
    HashFromSnoc(0, s, c);
  }

  /** `hash_alg`: the accumulator loop of the source. */
  method HashAlg(s: string) returns (num: int)
    ensures num == Hash(s)
    ensures 0 <= num <= 255
  {
    num := 0;
    for i := 0 to |s|
      invariant num == Hash(s[..i])
    {
      assert s[..i + 1] == s[..i] + [s[i]];
      HashSnoc(s[..i], s[i]);
      num := num + (s[i] as int);
      num := num * 17;
      num := num % 256;
    }
    assert s[..|s|] == s;
    HashRange(s);
  }

  function Hashes(steps: seq<string>): (hs: seq<int>)
    ensures |hs| == |steps|
    ensures forall i :: 0 <= i < |steps| ==> hs[i] == Hash(steps[i])
  {
    if steps == [] then [] else Hashes(steps[..|steps| - 1]) + [Hash(steps[|steps| - 1])]
  }

  /** `solve`: the sum of the hashes of all steps. */
  function Solve(steps: seq<string>): (total: int)
    ensures 0 <= total <= 255 * |steps|
  {
    var hs := Hashes(steps);
    HashesRange(steps);
    SumBounded(hs, 255);
    Sum(hs)
  }

  lemma HashesRange(steps: seq<string>)
    ensures forall i :: 0 <= i < |steps| ==> 0 <= Hashes(steps)[i] <= 255
  {
    forall i | 0 <= i < |steps| ensures 0 <= Hashes(steps)[i] <= 255 {
      HashRange(steps[i]);
    }
  }

  lemma SolveAppend(steps: seq<string>, s: string)
    ensures Solve(steps + [s]) == Solve(steps) + Hash(s)
  {
    assert (steps + [s])[..|steps|] == steps;
  }
}
