/** Classification of a byte read from the host link: a decimal digit asks the
    LED matrix to show that digit, `*` asks it to clear, anything else asks
    nothing of it. */
module HostInput {
  import opened Words

  const DIGIT_ZERO: u8 := '0' as int
  const DIGIT_NINE: u8 := '9' as int
  const CLEAR_MARK: u8 := '*' as int

  /** A colour triple handed to the matrix driver. */
  datatype Rgb = Rgb(r: nat, g: nat, b: nat)

  /** The two colour triples the main loop passes with every digit, in call order. */
  const DIGIT_FIRST_COLOUR: Rgb := Rgb(0, 10, 0)
  const DIGIT_SECOND_COLOUR: Rgb := Rgb(0, 0, 0)

  /** A call into the LED-matrix driver: `exibirNumeroComFundo`, `npClear`, `npWrite`. */
  datatype MatrixCommand =
    | ShowDigit(digit: nat, first: Rgb, second: Rgb)
    | Clear
    | Write

  predicate IsDigit(b: u8)
  {
    DIGIT_ZERO <= b <= DIGIT_NINE
  }

  /** The byte that spells decimal digit `d`. */
  function DigitByte(d: nat): (b: u8)
    requires d < 10
    ensures IsDigit(b) && b - DIGIT_ZERO == d
  {
    DIGIT_ZERO + d
  }

  /** The matrix calls one pass of the main loop makes for byte `b`, in order:
      the digit test first, then the clear-mark test. */
  function MatrixCommands(b: u8): seq<MatrixCommand>
  {
    (if IsDigit(b) then [ShowDigit(b - DIGIT_ZERO, DIGIT_FIRST_COLOUR, DIGIT_SECOND_COLOUR)] else [])
    + (if b == CLEAR_MARK then [Clear, Write] else [])
  }

  /** Digit `d` is shown exactly when the byte spells `d`, always with the fixed colours,
      and for a digit byte that is the only matrix call. */
  lemma ShowDigitExactly(b: u8, d: nat, first: Rgb, second: Rgb)
    ensures ShowDigit(d, first, second) in MatrixCommands(b)
        <==> d < 10 && b == DigitByte(d) && first == DIGIT_FIRST_COLOUR && second == DIGIT_SECOND_COLOUR
    ensures IsDigit(b) ==> MatrixCommands(b) == [ShowDigit(b - DIGIT_ZERO, DIGIT_FIRST_COLOUR, DIGIT_SECOND_COLOUR)]
  {
  }

  /** The matrix is cleared and then flushed exactly when the byte is `*`. */
  lemma ClearExactly(b: u8)
    ensures Clear in MatrixCommands(b) <==> b == CLEAR_MARK
    ensures b == CLEAR_MARK ==> MatrixCommands(b) == [Clear, Write]
  {
  }

  /** Showing a digit and clearing never happen for the same byte, and a byte
      that is neither a digit nor `*` asks nothing of the matrix. */
  lemma Exclusive(b: u8)
    ensures |MatrixCommands(b)| <= 2
    ensures !(IsDigit(b) && b == CLEAR_MARK)
    ensures MatrixCommands(b) == [] <==> !IsDigit(b) && b != CLEAR_MARK
  {
  }

  /** The matrix calls of a whole run of the main loop over `input`. */
  function HostCommands(input: seq<u8>): seq<MatrixCommand>
    decreases |input|
  {
    if |input| == 0 then [] else HostCommands(input[..|input| - 1]) + MatrixCommands(input[|input| - 1])
  }

  /** Every digit the main loop shows is in 0..9 and comes from a digit byte of the input. */
  lemma {:induction false} HostDigitsInRange(input: seq<u8>, k: nat)
    requires k < |HostCommands(input)| && HostCommands(input)[k].ShowDigit?
    ensures HostCommands(input)[k].digit < 10
    ensures DigitByte(HostCommands(input)[k].digit) in input
    decreases |input|
  {
    var pre := input[..|input| - 1];
    var last := input[|input| - 1];
    assert HostCommands(input) == HostCommands(pre) + MatrixCommands(last);
    if k < |HostCommands(pre)| {
      HostDigitsInRange(pre, k);
      assert DigitByte(HostCommands(input)[k].digit) in pre;
    } else {
      assert MatrixCommands(last)[k - |HostCommands(pre)|].ShowDigit?;
      assert IsDigit(last);
    }
  }

  /** The host sends `7` then `*`: the matrix shows 7, then is cleared and flushed. */
  lemma SevenThenClear()
    ensures HostCommands(['7' as int, '*' as int])
         == [ShowDigit(7, DIGIT_FIRST_COLOUR, DIGIT_SECOND_COLOUR), Clear, Write]
  {
    var input: seq<u8> := ['7' as int, '*' as int];
    assert input[..1] == ['7' as int];
    assert input[..1][..0] == [];
    assert HostCommands(input[..1]) == MatrixCommands('7' as int);
  }
}
