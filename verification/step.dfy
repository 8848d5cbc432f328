/**
 * `Step`, the progress of a game in `src/main.rs`: the lobby, one of ten
 * questions, or finished, and the integer the client receives for it.
 */
module Steps {

  /** Questions per game; the literal 9 in `Step::advance` is the last index. */
  const QuestionCount: nat := 10
  /** Length of the cycle Lobby, Question(0), ..., Question(9), Finished. */
  const Cycle: nat := QuestionCount + 2

  /** Rust's `u8`. */
  type U8 = x: int | 0 <= x < 256

  datatype Step = Lobby | Question(idx: U8) | Finished

  /** The steps a game can reach: question indices below the question count. */
  predicate ValidStep(s: Step)
  {
    s.Question? ==> s.idx < QuestionCount
  }

  /** Position of a reachable step in the cycle. */
  function Ordinal(s: Step): nat
    requires ValidStep(s)
  {
    match s
    case Lobby => 0
    case Question(i) => i + 1
    case Finished => QuestionCount + 1
  }

  /** The step at a position of the cycle: the inverse of `Ordinal`. */
  function StepAt(o: nat): (s: Step)
    requires o < Cycle
    ensures ValidStep(s) && Ordinal(s) == o
  {
    if o == 0 then Lobby
    else if o <= QuestionCount then Question(o - 1)
    else Finished
  }

  lemma StepAtOrdinal(s: Step)
    requires ValidStep(s)
    ensures Ordinal(s) < Cycle && StepAt(Ordinal(s)) == s
  {
  }

  /**
   * `Step::advance`: the next step, which the method also stores into `self`.
   * On a reachable step it moves one place forward around the cycle. An index
   * past 9 (never reached) is incremented as a `u8` with wrap-around.
   */
  function Advance(s: Step): (r: Step)
    ensures ValidStep(s) ==> ValidStep(r) && Ordinal(r) == (Ordinal(s) + 1) % Cycle
  {
    match s
    case Lobby => Question(0)
    case Question(i) => if i == QuestionCount - 1 then Finished else Question((i + 1) % 256)
    case Finished => Lobby
  }

  /** `n` successive calls of `advance`. */
  function AdvanceTimes(s: Step, n: nat): Step
    decreases n
  {
    if n == 0 then s else Advance(AdvanceTimes(s, n - 1))
  }

  lemma ModSucc(x: nat)
    ensures (x % Cycle + 1) % Cycle == (x + 1) % Cycle
  {
    var q, r := x / Cycle, x % Cycle;
    assert x == q * Cycle + r;
    if r + 1 < Cycle {
      assert x + 1 == q * Cycle + (r + 1);
    } else {
      assert x + 1 == (q + 1) * Cycle;
    }
  }

  lemma {:induction false} AdvanceTimesOrdinal(s: Step, n: nat)
    requires ValidStep(s)
    ensures ValidStep(AdvanceTimes(s, n))
    ensures Ordinal(AdvanceTimes(s, n)) == (Ordinal(s) + n) % Cycle
    decreases n
  {
    if n > 0 {
      AdvanceTimesOrdinal(s, n - 1);
      ModSucc(Ordinal(s) + n - 1);
    }
  }

  /** From the lobby, n advances reach the step at position n modulo 12. */
  lemma AdvanceTimesFromLobby(n: nat)
    ensures AdvanceTimes(Lobby, n) == StepAt(n % Cycle)
  {
    AdvanceTimesOrdinal(Lobby, n);
    StepAtOrdinal(AdvanceTimes(Lobby, n));
  }

  /**
   * From the lobby, advances 1 to 10 reach Question(0) to Question(9), the
   * 11th reaches Finished and the 12th returns to the lobby.
   */
  lemma GameSequence(n: nat)
    ensures 1 <= n <= QuestionCount ==> AdvanceTimes(Lobby, n) == Question(n - 1)
    ensures n == QuestionCount + 1 ==> AdvanceTimes(Lobby, n) == Finished
    ensures n == QuestionCount + 2 ==> AdvanceTimes(Lobby, n) == Lobby
  {
    AdvanceTimesFromLobby(n);
    if n < Cycle {
      assert n % Cycle == n;
    } else if n == Cycle {
      assert n % Cycle == 0;
    }
  }

  /** `impl Serialize for Step`: the `i16` the client receives. */
  function Serialize(s: Step): (n: int)
    ensures -0x8000 <= n < 0x8000
    ensures ValidStep(s) ==> 0 <= n < QuestionCount
    ensures s.Question? ==> n == s.idx
  {
    match s
    case Lobby => 0
    case Question(q) => q
    case Finished => QuestionCount - 1
  }

  /** The encoding is not injective: the lobby reads as the first question, the end as the last. */
  lemma SerializeCollisions()
    ensures Serialize(Lobby) == Serialize(Question(0))
    ensures Serialize(Finished) == Serialize(Question(QuestionCount - 1))
  {
  }
}
