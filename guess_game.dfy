/** The number-guessing game of uf1842/015_adivina_numero/js/app.js: a fixed
    target, a counter of remaining attempts that starts at 10, and the guess
    handler `adivinar`. */
module GuessGame {

  const Attempts: nat := 10

  /** The guessed value as JavaScript's `value * 1` yields it: a number
      (possibly fractional; 0 for blank text) or NaN for non-blank text
      that is not a numeric literal. */
  datatype Input = Num(value: real) | NaN

  /** What one call of the handler shows: the congratulation, a "less than
      the target" or "greater than the target" hint, or nothing but the
      restart button because no attempts are left. */
  datatype Outcome = Won | Lower | Higher | Exhausted

  /** One call of the handler on the counter: the new counter and the outcome. */
  function Step(remaining: nat, target: int, guess: Input): (r: (nat, Outcome))
    ensures remaining == 0 ==> r == (0, Exhausted)
    ensures remaining > 0 ==> r.1 != Exhausted
    ensures remaining > 0 ==> (r.1 == Won <==> guess == Num(target as real))
    ensures r.1 == Won ==> r.0 == 0
    ensures remaining > 0 && r.1 != Won ==> r.0 == remaining - 1
    ensures r.1 == Lower <==> remaining > 0 && guess.Num? && guess.value < target as real
    ensures r.0 <= remaining
  {
    if remaining == 0 then (0, Exhausted)
    else if guess == Num(target as real) then (0, Won)
    else if guess.Num? && guess.value < target as real then (remaining - 1, Lower)
    else (remaining - 1, Higher)
  }

  /** NaN, what non-blank text that is not a numeric literal becomes, is never
      a win and always draws the "greater" hint. */
  lemma NaNIsHigher(remaining: nat, target: int)
    requires remaining > 0
    ensures Step(remaining, target, NaN) == (remaining - 1, Higher)
  {
  }

  /** The outcomes of a sequence of guesses made from the given counter. */
  function Play(remaining: nat, target: int, guesses: seq<Input>): (outs: seq<Outcome>)
    ensures |outs| == |guesses|
    ensures |guesses| > 0 ==> outs[0] == Step(remaining, target, guesses[0]).1
    decreases |guesses|
  {
    if guesses == [] then []
    else
      var (next, o) := Step(remaining, target, guesses[0]);
      [o] + Play(next, target, guesses[1..])
  }

  /** How many guesses of an outcome sequence were processed (not ignored). */
  function Processed(outs: seq<Outcome>): nat
    decreases |outs|
  {
    if outs == [] then 0 else (if outs[0] == Exhausted then 0 else 1) + Processed(outs[1..])
  }

  /** No more guesses are processed than the counter allowed. */
  lemma {:induction false} ProcessedBound(remaining: nat, target: int, guesses: seq<Input>)
    ensures Processed(Play(remaining, target, guesses)) <= remaining
    decreases |guesses|
  {
    if guesses != [] {
      var (next, o) := Step(remaining, target, guesses[0]);
      ProcessedBound(next, target, guesses[1..]);
      assert Play(remaining, target, guesses)[1..] == Play(next, target, guesses[1..]);
    }
  }

  /** Every guess from the `remaining`-th on is ignored: from a fresh game,
      the eleventh and later guesses never count. */
  lemma {:induction false} IgnoredAfterAttempts(remaining: nat, target: int, guesses: seq<Input>)
    ensures forall k :: remaining <= k < |guesses| ==> Play(remaining, target, guesses)[k] == Exhausted
    decreases |guesses|
  {
    if guesses != [] {
      var (next, o) := Step(remaining, target, guesses[0]);
      IgnoredAfterAttempts(next, target, guesses[1..]);
      var outs := Play(remaining, target, guesses);
      forall k | remaining <= k < |guesses|
        ensures outs[k] == Exhausted
      {
        if remaining == 0 && k == 0 {
        } else {
          assert outs[k] == Play(next, target, guesses[1..])[k - 1];
        }
      }
    }
  }

  /** After a win every later guess is ignored. */
  lemma {:induction false} NothingAfterWin(remaining: nat, target: int, guesses: seq<Input>, w: nat)
    requires w < |guesses| && Play(remaining, target, guesses)[w] == Won
    ensures forall k :: w < k < |guesses| ==> Play(remaining, target, guesses)[k] == Exhausted
    decreases |guesses|
  {
    var (next, o) := Step(remaining, target, guesses[0]);
    var outs := Play(remaining, target, guesses);
    if w == 0 {
      IgnoredAfterAttempts(0, target, guesses[1..]);
      forall k | 0 < k < |guesses|
        ensures outs[k] == Exhausted
      {
        assert outs[k] == Play(0, target, guesses[1..])[k - 1];
      }
    } else {
      assert outs[w] == Play(next, target, guesses[1..])[w - 1];
      NothingAfterWin(next, target, guesses[1..], w - 1);
      forall k | w < k < |guesses|
        ensures outs[k] == Exhausted
      {
        assert outs[k] == Play(next, target, guesses[1..])[k - 1];
      }
    }
  }

  /** The page's game state. `inputDisabled` is the number field's
      `disabled`, `restartShown` whether the restart button was appended;
      `processed` counts the guesses the handler acted on. */
  class Game {
    const target: int
    var remaining: nat
    var inputDisabled: bool
    var restartShown: bool
    ghost var processed: nat

    ghost predicate Valid()
      reads this
    {
      && processed + remaining <= Attempts
      && (inputDisabled ==> remaining == 0)
    }

    /** The target is `Math.floor(Math.random() * 100)`, taken as a parameter. */
    constructor (target: int)
      requires 0 <= target < 100
      ensures Valid()
      ensures this.target == target && remaining == Attempts && processed == 0
      ensures !inputDisabled && !restartShown
    {
      this.target := target;
      remaining := Attempts;
      inputDisabled := false;
      restartShown := false;
      processed := 0;
    }

    /** `adivinar`: one submission of the form. */
    method Guess(guess: Input) returns (o: Outcome)
      requires Valid()
      modifies this
      ensures Valid()
      ensures (remaining, o) == Step(old(remaining), target, guess)
      ensures inputDisabled == (old(inputDisabled) || o == Won)
      ensures restartShown == (old(restartShown) || o == Won || o == Exhausted)
      ensures processed == old(processed) + (if o == Exhausted then 0 else 1)
      ensures processed <= Attempts
    {
      if remaining == 0 {
        restartShown := true;
        return Exhausted;
      }
      remaining := remaining - 1;
      processed := processed + 1;
      if guess == Num(target as real) {
        remaining := 0;
        inputDisabled := true;
        restartShown := true;
        o := Won;
      } else if guess.Num? && guess.value < target as real {
        o := Lower;
      } else {
        o := Higher;
      }
    }
  }
}
