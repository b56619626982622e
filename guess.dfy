/** The console game in GuessTheNumber.java: a secret number between 1 and 100,
    and a loop that reads one guess per round until the guess is right.
    `Random.nextInt(100)` is the parameter `roll`; the numbers `Scanner.nextInt()`
    would read are the sequence `guesses`. */
module GuessTheNumber {

  const Low := 1
  const High := 100

  /** What the game prints for one guess. */
  datatype Feedback =
    | OutOfRange  // "Please enter a number between 1 and 100."
    | TooLow      // "Your guess is too low."
    | TooHigh     // "Your guess is too high."
    | Correct     // "Congratulations! You guessed the number in N tries."

  /** `rand.nextInt(100) + 1`: `nextInt(100)` yields 0..99. */
  function SecretNumber(roll: int): (n: int)
    requires 0 <= roll < 100
    ensures Low <= n <= High
    ensures n - 1 == roll
  {
    roll + 1
  }

  /** The if-chain of one round: the range is checked before the comparison with the secret. */
  function Classify(guess: int, target: int): (f: Feedback)
    requires Low <= target <= High
    ensures f == OutOfRange <==> guess < Low || guess > High
    ensures f == TooLow <==> Low <= guess < target
    ensures f == TooHigh <==> target < guess <= High
    ensures f == Correct <==> guess == target
  {
    if guess < Low || guess > High then OutOfRange
    else if guess < target then TooLow
    else if guess > target then TooHigh
    else Correct
  }

  /** `main`: returns the secret, what was printed round by round, the final
      `numberOfTries`, and `win`. When the input runs out before a correct guess,
      `nextInt` throws and the program stops with `win` still false. */
  method Play(roll: int, guesses: seq<int>) returns (target: int, feedback: seq<Feedback>, numberOfTries: nat, win: bool)
    requires 0 <= roll < 100
    ensures Low <= target <= High && target == roll + 1
    ensures numberOfTries == |feedback| <= |guesses|
    ensures forall i :: 0 <= i < numberOfTries ==> feedback[i] == Classify(guesses[i], target)
    ensures win <==> target in guesses
    ensures win ==> 1 <= numberOfTries && guesses[numberOfTries - 1] == target
    ensures win ==> target !in guesses[..numberOfTries - 1]
    ensures !win ==> numberOfTries == |guesses|
  {
    target := SecretNumber(roll);
    numberOfTries := 0;
    feedback := [];
    win := false;
    var read := 0;  // how many numbers the scanner has consumed
    while !win && read < |guesses|
      invariant read == numberOfTries == |feedback| <= |guesses|
      invariant forall i :: 0 <= i < numberOfTries ==> feedback[i] == Classify(guesses[i], target)
      invariant win ==> 1 <= read && guesses[read - 1] == target
      invariant target !in (if win then guesses[..read - 1] else guesses[..read])
      decreases |guesses| - read, if win then 0 else 1
    {
      var guess := guesses[read];
      read := read + 1;
      numberOfTries := numberOfTries + 1;
      var f := Classify(guess, target);
      feedback := feedback + [f];
      if f == Correct {
        win := true;
      }
      assert guesses[..read] == guesses[..read - 1] + [guess];
    }
    if !win {
      assert guesses[..read] == guesses;
    } else {
      assert target in guesses[..read];
    }
  }

  /** The round that ends the game is the first correct guess, and every earlier
      round printed one of the three other messages. */
  lemma {:induction false} EarlierRoundsDoNotEnd(guesses: seq<int>, target: int, n: nat)
    requires Low <= target <= High
    requires 1 <= n <= |guesses| && guesses[n - 1] == target && target !in guesses[..n - 1]
    ensures Classify(guesses[n - 1], target) == Correct
    ensures forall i :: 0 <= i < n - 1 ==> Classify(guesses[i], target) in {OutOfRange, TooLow, TooHigh}
  {
    forall i | 0 <= i < n - 1
      ensures Classify(guesses[i], target) != Correct
    {
      assert guesses[i] == guesses[..n - 1][i];
    }
  }
}
