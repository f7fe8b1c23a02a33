/**
  Doicha-Ioji.c: the Deutsch-Jozsa demo on two classical `int` qubits. The
  "Hadamard" is `*qubit ^= 1`, the oracle XORs the output qubit with `f(input)`,
  and the first qubit is measured after a second Hadamard. The worker thread
  that runs `execute_algorithm` is run here as a plain call.
 */
module DoichaIoji {

  /**
    `*qubit ^= 1` on a two's-complement `int`: the lowest bit is toggled and
    the bits above it (`q / 2`, an arithmetic shift) are kept.
   */
  function Hadamard(q: int): (r: int)
    ensures r % 2 == 1 - q % 2
    ensures r / 2 == q / 2
  {
    if q % 2 == 0 then q + 1 else q - 1
  }

  lemma HadamardInvolutive(q: int)
    ensures Hadamard(Hadamard(q)) == q
  {
  }

  /** A value is determined by its lowest bit and the bits above it. */
  lemma SameBitsSameValue(p: int, q: int)
    requires p % 2 == q % 2 && p / 2 == q / 2
    ensures p == q
  {
  }

  /**
    `oracle`: the first component is the input qubit, the second the output
    qubit. The input is never written; the output is flipped exactly when
    `f(input)` holds.
   */
  function Oracle(input: int, output: int, f: int -> bool): (r: (int, int))
    ensures r.0 == input
    ensures r.1 / 2 == output / 2
    ensures r.1 != output <==> f(input)
  {
    if f(input) then (input, Hadamard(output)) else (input, output)
  }

  /** `measure`: the qubit reads as set when it equals 1. */
  function Measure(q: int): bool
  {
    q == 1
  }

  /** Measuring after a Hadamard reads as set exactly when the qubit was 0. */
  lemma MeasureAfterHadamard(q: int)
    ensures Measure(Hadamard(q)) <==> q == 0
  {
    if q == 0 {
    } else if Hadamard(q) == 1 {
      SameBitsSameValue(q, 0);
    }
  }

  function ConstantFunction(x: int): bool
  {
    true
  }

  function BalancedFunction(x: int): bool
  {
    x != 0
  }

  /**
    The body of `execute_algorithm`: Hadamard on both qubits, the oracle, a
    second Hadamard on the input qubit, then measure it and return 1 or 0.
    The input qubit is toggled twice and never written by the oracle, so the
    result is whether the initial input was 1, whatever `f` and the output
    qubit are.
   */
  function ExecuteAlgorithm(input: int, output: int, f: int -> bool): (r: int)
    ensures r == 1 <==> input == 1
    ensures r == 0 || r == 1
  {
    var q0 := Hadamard(input);
    var q1 := Hadamard(output);
    var (q0', q1') := Oracle(q0, q1, f);
    var q0'' := Hadamard(q0');
    HadamardInvolutive(input);
    if Measure(q0'') then 1 else 0
  }

  /** The verdict `main` prints for a thread's result. */
  function Verdict(result: int): string
  {
    if result == 1 then "CONSTANT" else "BALANCED"
  }

  /** Deutsch-Jozsa as coded here cannot tell two functions apart. */
  lemma ResultIndependentOfF(input: int, output: int, output': int, f: int -> bool, g: int -> bool)
    ensures ExecuteAlgorithm(input, output, f) == ExecuteAlgorithm(input, output', g)
  {
  }

  /** `main` starts both runs from `|0>|1>`, and both print "BALANCED". */
  lemma MainPrintsBalancedTwice()
    ensures Verdict(ExecuteAlgorithm(0, 1, ConstantFunction)) == "BALANCED"
    ensures Verdict(ExecuteAlgorithm(0, 1, BalancedFunction)) == "BALANCED"
  {
  }
}
