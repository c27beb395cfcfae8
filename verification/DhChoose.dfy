/** choose_dh of ssh/dh.c: two passes over the file of primes.  A line is what parse_prime makes of
    it, the size of the prime or nothing. */
module DhChoose {
  import opened Wire

  type Line = Option<nat>

  predicate Admissible(l: Line, min: int, max: int) { l.Some? && min <= l.value <= max }

  /** A line of the wanted size, in bounds. */
  predicate IsOf(l: Line, min: int, max: int, size: nat) { Admissible(l, min, max) && l.value == size }

  function Count(file: seq<Line>, n: nat, min: int, max: int, size: nat): nat
    requires n <= |file|
  {
    if n == 0 then 0 else Count(file, n - 1, min, max, size) + if IsOf(file[n - 1], min, max, size) then 1 else 0
  }

  /** parse_prime adds one to the size it reads. */
  predicate Sizes(file: seq<Line>) { forall i | 0 <= i < |file| && file[i].Some? :: file[i].value >= 1 }

  /** Of the lines that are large enough the first has exactly the wanted size. */
  ghost predicate WantedFirst(file: seq<Line>, n: nat, min: int, max: int, want: nat)
    requires n <= |file|
  {
    exists i | 0 <= i < n :: IsOf(file[i], min, max, want) && AllBelow(file, i, min, max, want)
  }

  ghost predicate AllBelow(file: seq<Line>, n: nat, min: int, max: int, want: nat)
    requires n <= |file|
  {
    forall j | 0 <= j < n && Admissible(file[j], min, max) :: file[j].value < want
  }

  /** `best` is right for the first `n` lines: 0 when none is admissible; the largest if all are
      below the wanted size; the wanted size exactly when it comes before everything larger; and
      otherwise the least size above it. */
  ghost predicate Best(file: seq<Line>, n: nat, min: int, max: int, want: int, best: nat)
    requires n <= |file|
  {
    && (best == 0 ==> forall i | 0 <= i < n :: !Admissible(file[i], min, max))
    && (best > 0 ==> exists i | 0 <= i < n :: IsOf(file[i], min, max, best))
    && (best < want ==> forall i | 0 <= i < n && Admissible(file[i], min, max) :: file[i].value <= best)
    && (best >= want ==> forall i | 0 <= i < n && Admissible(file[i], min, max) :: !(want < file[i].value < best))
    && (want >= 0 ==> (best == want <==> WantedFirst(file, n, min, max, want)))
  }

  /** The choice that the first pass makes at one line. */
  predicate Better(size: nat, want: int, best: nat) { (size > want && size < best) || (size > best && best < want) }

  lemma {:induction false} NotSeen(file: seq<Line>, n: nat, min: int, max: int, want: int, best: nat, size: nat)
    requires n <= |file| && Best(file, n, min, max, want, best) && Better(size, want, best)
    ensures Count(file, n, min, max, size) == 0
  {
    CountZero(file, n, min, max, size);
  }

  lemma {:induction false} CountZero(file: seq<Line>, n: nat, min: int, max: int, size: nat)
    requires n <= |file| && forall i | 0 <= i < n :: !IsOf(file[i], min, max, size)
    ensures Count(file, n, min, max, size) == 0
  {
    if n > 0 { CountZero(file, n - 1, min, max, size); }
  }

  lemma WantedNext(file: seq<Line>, n: nat, min: int, max: int, want: nat)
    requires n < |file|
    ensures WantedFirst(file, n + 1, min, max, want) <==>
              WantedFirst(file, n, min, max, want)
              || (IsOf(file[n], min, max, want) && AllBelow(file, n, min, max, want))
  {
  }

  lemma BestNext(file: seq<Line>, n: nat, min: int, max: int, want: int, best: nat)
    requires n < |file| && Sizes(file) && want >= 1 && Best(file, n, min, max, want, best)
    ensures !Admissible(file[n], min, max) ==> Best(file, n + 1, min, max, want, best)
    ensures Admissible(file[n], min, max) ==>
              Best(file, n + 1, min, max, want, if Better(file[n].value, want, best) then file[n].value else best)
  {
    WantedNext(file, n, min, max, want);
    if Admissible(file[n], min, max) && Better(file[n].value, want, best) {
      assert IsOf(file[n], min, max, file[n].value);
    } else if best > 0 {
      var i :| 0 <= i < n && IsOf(file[i], min, max, best);
    }
  }

  /** This determines the size. */
  lemma BestIsUnique(file: seq<Line>, min: int, max: int, want: nat, best: nat, best': nat)
    requires Sizes(file) && want >= 1
    requires Best(file, |file|, min, max, want, best) && Best(file, |file|, min, max, want, best')
    ensures best == best'
  {
    if best > 0 { var i :| 0 <= i < |file| && IsOf(file[i], min, max, best); }
    if best' > 0 { var i :| 0 <= i < |file| && IsOf(file[i], min, max, best'); }
  }

  /** A prime of the wanted size, first on line `i`, is what is chosen exactly when no larger one
      comes before it. */
  lemma WantedIsChosenIff(file: seq<Line>, min: int, max: int, want: nat, best: nat, i: nat)
    requires Best(file, |file|, min, max, want, best) && i < |file| && IsOf(file[i], min, max, want)
    requires forall j | 0 <= j < i :: !IsOf(file[j], min, max, want)
    ensures best == want <==> AllBelow(file, i, min, max, want)
  {
    if WantedFirst(file, |file|, min, max, want) {
      var k :| 0 <= k < |file| && IsOf(file[k], min, max, want) && AllBelow(file, k, min, max, want);
      assert k == i;
    }
  }

  /** It is passed over when the file starts with a larger one. */
  lemma WantedIsPassedOver()
    ensures Best([Some(4096), Some(2048)], 2, 1024, 8192, 2048, 4096)
  {
    var file: seq<Line> := [Some(4096), Some(2048)];
    assert IsOf(file[0], 1024, 8192, 4096);
  }

  /** The first pass: the best size, and how many lines have it. */
  method FirstPass(file: seq<Line>, min: int, max: int, want: int) returns (best: nat, bestcount: nat)
    requires Sizes(file)
    ensures want >= 1 ==> Best(file, |file|, min, max, want, best)
    ensures want >= 1 ==> bestcount == Count(file, |file|, min, max, best)
    ensures want < 1 ==> best == 0 && bestcount == 0
  {
    best, bestcount := 0, 0;
    for n := 0 to |file|
      invariant want >= 1 ==> Best(file, n, min, max, want, best) && bestcount == Count(file, n, min, max, best)
      invariant want < 1 ==> best == 0 && bestcount == 0
    {
      if want >= 1 { BestNext(file, n, min, max, want, best); }
      if !Admissible(file[n], min, max) { continue; }
      var size := file[n].value;
      if Better(size, want, best) {
        if want >= 1 { NotSeen(file, n, min, max, want, best, size); }
        best := size;
        bestcount := 0;
      }
      if size == best { bestcount := bestcount + 1; }
    }
  }

  /** The second pass: the line that `which` lines of the best size precede. */
  method SecondPass(file: seq<Line>, min: int, max: int, best: nat, which: nat) returns (choice: Option<nat>)
    ensures choice.Some? ==> choice.value < |file| && IsOf(file[choice.value], min, max, best)
                             && Count(file, choice.value, min, max, best) == which
    ensures choice.None? <==> Count(file, |file|, min, max, best) <= which
  {
    var linenum := 0;
    for n := 0 to |file|
      invariant linenum == Count(file, n, min, max, best) <= which
    {
      if IsOf(file[n], min, max, best) {
        if linenum == which {
          CountGrows(file, n + 1, min, max, best);
          return Some(n);
        }
        linenum := linenum + 1;
      }
    }
    return None;
  }

  lemma {:induction false} CountGrows(file: seq<Line>, n: nat, min: int, max: int, size: nat)
    requires n <= |file|
    ensures Count(file, n, min, max, size) <= Count(file, |file|, min, max, size)
    decreases |file| - n
  {
    if n < |file| { CountGrows(file, n + 1, min, max, size); }
  }

  /** choose_dh on a file that does not change: `random` picks one of the best lines, and the
      second pass stops on exactly that one.  None is the fixed group, taken only when no line is
      admissible. */
  method ChooseDh(file: seq<Line>, min: int, max: int, want: int, random: nat) returns (best: nat, choice: Option<nat>)
    requires Sizes(file) && want >= 1
    ensures Best(file, |file|, min, max, want, best)
    ensures choice.None? <==> forall i | 0 <= i < |file| :: !Admissible(file[i], min, max)
    ensures choice.Some? ==>
              && choice.value < |file| && IsOf(file[choice.value], min, max, best)
              && Count(file, |file|, min, max, best) > 0
              && Count(file, choice.value, min, max, best) == random % Count(file, |file|, min, max, best)
  {
    hide Better;
    var bestcount;
    best, bestcount := FirstPass(file, min, max, want);
    BestCounted(file, |file|, min, max, want, best);
    if bestcount == 0 { return best, None; }
    choice := SecondPass(file, min, max, best, random % bestcount);
  }

  lemma {:induction false} BestCounted(file: seq<Line>, n: nat, min: int, max: int, want: int, best: nat)
    requires n <= |file| && Sizes(file) && Best(file, n, min, max, want, best)
    ensures Count(file, n, min, max, best) == 0 <==> forall i | 0 <= i < n :: !Admissible(file[i], min, max)
  {
    if best == 0 {
      CountZero(file, n, min, max, best);
    } else {
      var i :| 0 <= i < n && IsOf(file[i], min, max, best);
      CountPositive(file, n, min, max, best, i);
    }
  }

  lemma {:induction false} CountPositive(file: seq<Line>, n: nat, min: int, max: int, size: nat, i: nat)
    requires i < n <= |file| && IsOf(file[i], min, max, size)
    ensures Count(file, n, min, max, size) > 0
  {
    if i < n - 1 { CountPositive(file, n - 1, min, max, size, i); }
  }

  /** Each of the best lines is the choice for some random number. */
  lemma {:induction false} EveryLineHasItsNumber(file: seq<Line>, i: nat, j: nat, min: int, max: int, size: nat)
    requires i < j < |file| && IsOf(file[i], min, max, size) && IsOf(file[j], min, max, size)
    ensures Count(file, i, min, max, size) < Count(file, j, min, max, size) < Count(file, |file|, min, max, size)
    decreases j
  {
    CountGrows(file, j + 1, min, max, size);
    CountUpTo(file, i + 1, j, min, max, size);
  }

  lemma {:induction false} CountUpTo(file: seq<Line>, i: nat, j: nat, min: int, max: int, size: nat)
    requires i <= j <= |file|
    ensures Count(file, i, min, max, size) <= Count(file, j, min, max, size)
    decreases j
  {
    if i < j { CountUpTo(file, i, j - 1, min, max, size); }
  }
}
