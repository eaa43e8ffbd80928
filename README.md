# Robolab exercises: two stack machines, a Hamming script and the shunting-yard

This project models four small components of the robolab exercise repository, and proves properties about them in Dafny:

- **The 8-bit stack machine** (`stack_machine.py`).
  - Each 6-bit code word is decoded to a number 0–15, one of the instructions, a space or a letter. Numbers, spaces and letters are pushed; instructions are run.
  - Integers are stored on the stack as 8-bit tuples, most significant bit first. Characters are stored as one-character strings.
  - ADD, SUB, MUL and EXP wrap into 0..255 and set the `overflow` flag exactly when they wrap.
  - `do` turns every exception of an instruction into `ERROR`. Every other instruction returns 0, the value of `STOPPED`, so only an operand push returns `RUNNING`.
  - Modelled as the class `StackMachine8.StackMachine`. Its methods are proved against the pure specification functions `Exec` and `DoStep`.
- **The 4-bit stack machine** (`pdf-files/a3-stack-machines/code/stack_machine.py`), an earlier variant with different arithmetic:
  - ADD and EXP reduce results above 15 modulo 16.
  - SUB adds 16 to a negative difference. MUL does the same for a negative product, so a product of non-negative numbers never wraps.
  - The flag is set on a wrap and otherwise left as it was.
  - Underflow raises `ValueError`.
  - It also translates an RPN string into a listing of binary strings, and runs a program up to its first STP.
  - Modelled as the class `StackMachine4.StackMachine`. Its methods are proved against `Exec`, `RpnListing` and `Simulate`.
- **The extended Hamming (8,4) script** (`pdf-files/a1-hamming-code/code/hc.py`). It has four generator and check matrices, `transpose`, `encode` and `get_syndrome`, and a classify-and-correct section.
  - That section is lifted out of the script into `HammingScript.Diagnose` and `HammingScript.Correct`, parameterised by the check matrix.
  - It is implemented by the methods `CheckWord` and `CorrectionLoop`.
  - The linear algebra over GF(2) that the proofs rest on is in `Gf2`.
- **Dijkstra's shunting-yard** (`pdf-files/a3-stack-machines/code/shunting-yard.py`). It turns an infix expression of one-character tokens into reverse Polish notation, using an operator stack and an output list.
  - Specified by `ShuntingYard.Rpn`, which is built from `Scan` and `Drain`.
  - Implemented by the method `ShuntingYard.ShuntingYard`, with the nested loops `PushOperator` and `CloseParen`.

Shared pieces:

- `InstructionSet`: the 6-bit word format, which both machines decode the same way.
- `Python`: the Python values, the exceptions, Python's `//`, `%`, `**`, `>>` and `^` on unbounded integers, and `int(s, 2)`.
- `Bits`: bit strings read most significant bit first, and `bin(n)[2:].zfill(w)`.
- `Wrappers`: `Option` and `Result`.

Exceptions are modelled as `Failure` values of `Result`, with the exception's class as the error.

## Model

| member | source | states |
|---|---|---|
| InstructionSet.ParseValue | stack_machine.py:57-78 | A value decodes to: 0..15, the number itself; 16..31, the instruction whose enum value it is; 33, SPEAK; 34, a space; 36..61, the letter 'A' + v - 36; 32, 35, negatives and 62 upward, NOP. Each direction of each case is stated. The 4-bit `parse_byte` is the same function. |
| InstructionSet.WordCodeDecodes | stack_machine.py:11-29 | Every word that has a code decodes back from that code, so the decoding inverts the enum values. |
| InstructionSet.ParseValueEncodes | stack_machine.py:57-78 | Every value that does not decode to NOP is the code of the word it decodes to. |
| Python.FloorDiv | stack_machine.py:194-197 | Python's `//` rounds toward minus infinity: b*q <= a < b*q + b for b > 0, and the mirror image for b < 0. |
| Python.FloorMod | stack_machine.py:208-212 | Python's `%` takes the sign of the divisor, and a == b * (a // b) + a % b. |
| Python.ShiftRight | stack_machine.py:215-219 | `a >> k` is the floor of a / 2^k. |
| Python.Pow | stack_machine.py:200 | `b ** e` with a non-negative base is non-negative. |
| Python.PowAdd | stack_machine.py:200 | The exponent law: b ** (e + f) == b ** e * b ** f. |
| Python.Xor | stack_machine.py:229 | `a ^ b` on ints of either sign is negative exactly when one operand is negative. |
| Python.BitAt | stack_machine.py:229 | `(a >> k) % 2` is bit k of a in two's complement, the floor of a / 2^k modulo 2, and is 0 or 1. |
| Python.XorBits | pdf-files/a3-stack-machines/code/stack_machine.py:173 | Every bit of `a ^ b`, for either sign of either operand, is the sum modulo 2 of the same bit of a and of b. |
| Python.XorCommutes | pdf-files/a3-stack-machines/code/stack_machine.py:173 | `a ^ b == b ^ a` for every pair of ints. |
| Bits.NatXor | stack_machine.py:229 | Exclusive or of non-negative ints is zero exactly on equal operands and at most their sum. |
| Bits.NatXorBit | stack_machine.py:229 | Bit k of the exclusive or of two non-negative ints is the sum modulo 2 of their bits k. |
| Bits.NatXorCommutes | stack_machine.py:229 | Exclusive or of non-negative ints does not depend on the operand order. |
| Bits.ZFill | stack_machine.py:127 | zfill pads to the width and does not change the value of the bits. |
| Bits.BinaryValue | stack_machine.py:127 | Reading back the digits of `bin(n)[2:]` gives n. |
| Bits.ToNatInjective | stack_machine.py:149 | Two bit strings of one length with the same value are equal. |
| StackMachine8.ByteBits | stack_machine.py:127 | The tuple `_push` stores for n has value n, and is exactly 8 bits long when n <= 255. |
| StackMachine8.ByteBitsOfTuple | stack_machine.py:127-149 | Every 8-bit tuple has value at most 255, and is the tuple its value would be stored as. |
| StackMachine8.Pushed | stack_machine.py:119-133 | `_push` fails exactly on a negative int (`bin(-n)[2:]` keeps a 'b', as in '0000b101', and `int(bit)` raises on it) or on a string whose length is not 1, and the failure is ValueError. |
| StackMachine8.PushReadByte | stack_machine.py:126-127 | An int 0..255 is stored as eight bits, and popping converts it back to the same int. |
| StackMachine8.PushReadRoundTrip | stack_machine.py:119-153 | Every value `_push` accepts is read back unchanged by the pop. |
| StackMachine8.TopOperands | stack_machine.py:135-153 | Popping n raises IndexError exactly when the stack has fewer than n entries. Otherwise operand k is the entry k places below the top, read back, and the stack left is the prefix without the top n. |
| StackMachine8.Exec | stack_machine.py:155-235 | `_run_instruction`: the new stack, the new flag and the return code or exception. STP and the printing instructions change nothing; DUP pushes the top twice; ADD, SUB, MUL and EXP push the result modulo 256 and set the flag on a wrap; DIV pops and clears the flag, then pushes the floor quotient; MOD, SHR and XOR clear the flag, then pop and push. |
| StackMachine8.DoStep | stack_machine.py:80-108 | `do`: decode the code word; push an operand, clearing the flag, with RUNNING; run an instruction, with any exception it raises turned into ERROR. |
| StackMachine8.ExecNeverRunning | stack_machine.py:155-235 | No instruction returns RUNNING: every instruction that does not raise returns STOPPED (STP, and the final `return 0`). |
| StackMachine8.InertInstructions | stack_machine.py:163-234 | DEL, SWP, SHL, HEX, FAC, NOT, NOP and SPEAK change neither the stack nor the flag. |
| StackMachine8.Underflow | stack_machine.py:145-146 | An instruction raises IndexError exactly when the stack holds fewer operands than it takes. The stack is then unchanged, and only MOD, SHR and XOR have cleared the flag. |
| StackMachine8.ArithmeticWraps | stack_machine.py:167-207 | On two ints, ADD, SUB, MUL and EXP replace them by `second op top` modulo 256, and set the flag exactly when the raw result lies outside 0..255. |
| StackMachine8.WrapIsModulo | stack_machine.py:170-180 | The source's two wrap rules (`%= 256`, and `+256` for a negative difference) both compute the result modulo 256, and report a wrap exactly outside 0..255. |
| StackMachine8.DivisionByZero | stack_machine.py:194-212 | DIV and MOD by zero raise ZeroDivisionError after both operands are popped, with the flag cleared. |
| StackMachine8.ClearsOverflow | stack_machine.py:194-230 | DIV, MOD, SHR and XOR leave the flag cleared. The one exception is DIV on underflow, which raises before clearing. |
| StackMachine8.CharacterOperands | stack_machine.py:167-230 | A binary instruction with a character operand pops both operands and raises TypeError, except MOD with '%' below the top: `'%' % x` is an incomplete format string and raises ValueError. |
| StackMachine8.DupDuplicates | stack_machine.py:159-162 | DUP replaces the top entry x by x, x. |
| StackMachine8.ByteOperands | stack_machine.py:145-153 | The operands popped from a stack of 8-bit tuples are ints of at most 255, or characters. |
| StackMachine8.PushKeepsBytes | stack_machine.py:125-133 | Pushing an int of at most 255, or a character, keeps every int on the stack an 8-bit tuple. |
| StackMachine8.ExecKeepsBytes | stack_machine.py:155-235 | Every instruction keeps every int on the stack an 8-bit tuple. |
| StackMachine8.ParseByte | stack_machine.py:57-59 | Decoding fails exactly on the empty code word, where `int('', 2)` raises. |
| StackMachine8.ParseByteOfCode | stack_machine.py:57-78 | The code of a word, written in binary with any number of leading zeros, decodes back to that word. |
| StackMachine8.DoOutcomes | stack_machine.py:80-108 | `do` raises (ValueError) only on the empty code word. An operand is pushed on top of the unchanged stack, reads back as itself, clears the flag and gives RUNNING. An instruction gives ERROR exactly when it raises, and otherwise STOPPED. |
| StackMachine8.DoKeepsBytes | stack_machine.py:80-108 | `do` keeps every int on the stack an 8-bit tuple. |
| StackMachine8.StackMachine.constructor | stack_machine.py:50-55 | A new machine has an empty stack and no overflow. |
| StackMachine8.StackMachine.Top | stack_machine.py:110-117 | `top` is None exactly on an empty stack, and otherwise the last entry. |
| StackMachine8.StackMachine.Push | stack_machine.py:119-133 | `_push` appends the stored entry and succeeds exactly when Pushed does. On ValueError it leaves the stack alone; the flag never changes. |
| StackMachine8.StackMachine.PopOperands | stack_machine.py:135-153 | The loop of pops returns what TopOperands specifies and leaves its rest; on IndexError the stack is unchanged. |
| StackMachine8.StackMachine.RunInstruction | stack_machine.py:155-235 | The new stack, the new flag and the result or exception are those of Exec on the old stack and flag, and the stack still holds only 8-bit tuples and one-character strings. |
| StackMachine8.StackMachine.RunDup | stack_machine.py:159-162 | The DUP branch does what DupStep specifies. |
| StackMachine8.StackMachine.RunArithmetic | stack_machine.py:167-207 | The ADD, SUB, MUL and EXP branches do what ArithmeticStep specifies. |
| StackMachine8.StackMachine.RunDiv | stack_machine.py:194-197 | The DIV branch does what DivStep specifies: the flag is cleared after the pop. |
| StackMachine8.StackMachine.RunClearing | stack_machine.py:208-230 | The MOD, SHR and XOR branches do what ClearingStep specifies: the flag is cleared before the pop. |
| StackMachine8.StackMachine.Do | stack_machine.py:80-108 | `do` keeps the 8-bit tuple invariant, and its new state and result are those of DoStep. |
| StackMachine4.TakeOperands | pdf-files/a3-stack-machines/code/stack_machine.py:103-107 | `get_operands_from_stack(n)` raises ValueError exactly when fewer than n values are on the stack. Otherwise operand k is the value k places below the top. |
| StackMachine4.Apply | pdf-files/a3-stack-machines/code/stack_machine.py:120-174 | `second op top` on two ints, with the result and whether it wrapped: ADD and EXP reduce above 15, SUB and MUL add 16 when negative, DIV and MOD floor and raise ZeroDivisionError on 0, SHR raises ValueError on a negative count, a negative exponent gives a float. |
| StackMachine4.BinaryStep | pdf-files/a3-stack-machines/code/stack_machine.py:120-174 | A two-operand instruction: pop two values, raise on a str (ValueError for MOD with '%' on the left, TypeError otherwise), else push Apply's result and set the flag on a wrap. DIV clears the flag once both operands are popped. |
| StackMachine4.Exec | pdf-files/a3-stack-machines/code/stack_machine.py:109-179 | `run_instruction`: STP returns 1 and changes nothing; DUP pushes the top twice; the arithmetic instructions are BinaryStep, with the flag cleared first for MOD, SHR and XOR; every other instruction returns 0 and changes nothing. |
| StackMachine4.ReturnCodes | pdf-files/a3-stack-machines/code/stack_machine.py:109-179 | STP returns 1 and changes nothing. Every other instruction that does not raise returns 0. |
| StackMachine4.PrintOnlyInstructions | pdf-files/a3-stack-machines/code/stack_machine.py:116-178 | DEL, SWP, SHL, HEX, FAC, NOT, NOP and SPEAK change neither the stack nor the flag. |
| StackMachine4.Underflow | pdf-files/a3-stack-machines/code/stack_machine.py:103-107 | Too few operands raise ValueError and leave the stack unchanged. Only MOD, SHR and XOR have cleared the flag. |
| StackMachine4.DupDuplicates | pdf-files/a3-stack-machines/code/stack_machine.py:112-115 | DUP replaces the top value x by x, x. |
| StackMachine4.AddExpWrap | pdf-files/a3-stack-machines/code/stack_machine.py:120-151 | ADD and EXP push the result reduced modulo 16 when above 15, and set the flag then. Otherwise the flag keeps its old value. |
| StackMachine4.SubWrap | pdf-files/a3-stack-machines/code/stack_machine.py:127-133 | SUB adds 16 to a negative difference and sets the flag. Otherwise the flag keeps its old value. |
| StackMachine4.MulNeverWraps | pdf-files/a3-stack-machines/code/stack_machine.py:134-140 | MUL of two non-negative ints pushes the full product, even above 15, and leaves the flag. |
| StackMachine4.DivFloors | pdf-files/a3-stack-machines/code/stack_machine.py:141-144 | DIV pushes the floor quotient and clears the flag. By zero it raises ZeroDivisionError, with the flag cleared. |
| StackMachine4.ClearingInstructions | pdf-files/a3-stack-machines/code/stack_machine.py:152-174 | MOD, SHR and XOR leave the flag cleared, whatever they raise. |
| StackMachine4.StrOperands | pdf-files/a3-stack-machines/code/stack_machine.py:120-174 | On a stack of one-character strs, a binary instruction with a str operand pops both operands and raises TypeError, except MOD with '%' below the top, which raises ValueError. |
| StackMachine4.ExecKeepsChars | pdf-files/a3-stack-machines/code/stack_machine.py:109-179 | No instruction puts a str longer than one character on the stack: DUP copies, the others push ints. |
| StackMachine4.RunWordsKeepsChars | pdf-files/a3-stack-machines/code/stack_machine.py:83-101 | The run loop pushes parsed characters and runs instructions, so every str on the stack stays a single character. |
| StackMachine4.SimulateKeepsChars | pdf-files/a3-stack-machines/code/stack_machine.py:75-101 | Every stack `simulate_instructions` leaves holds only one-character strs. |
| Python.ParseBinary | pdf-files/a3-stack-machines/code/stack_machine.py:56 | `int(s, 2)` raises nothing but ValueError. The strings it accepts and the values it reads are stated by LiteralParses and ParsedIsLiteral. |
| Python.PlainDigits | pdf-files/a3-stack-machines/code/stack_machine.py:56 | A non-empty string of binary digits reads as the number they spell, most significant first. |
| Python.LiteralParses | pdf-files/a3-stack-machines/code/stack_machine.py:56 | Every well-formed literal (whitespace, sign, prefix, underscore-separated digit groups, whitespace) reads as its value: the digits of all groups read in base 2, negated after a `-`. |
| Python.ParsedIsLiteral | pdf-files/a3-stack-machines/code/stack_machine.py:56 | Conversely, every string `int(s, 2)` accepts is such a literal, and the value read is that literal's value. |
| StackMachine4.ParseInstrList | pdf-files/a3-stack-machines/code/stack_machine.py:55-56 | `parse_instr_list` raises ValueError exactly when some string is refused by `int(x, 2)`. Otherwise it returns one word per string, word i being the decoding of the value read from string i. |
| StackMachine4.DecodeReads | pdf-files/a3-stack-machines/code/stack_machine.py:55-56 | Decoding already-read values fails exactly when one read failed, and then with the error of a failed read. Otherwise the words are the element-wise decodings, one per value. |
| StackMachine4.SignedListing | pdf-files/a3-stack-machines/code/stack_machine.py:55-56 | A listing line need not be six plain digits: " -1" reads as -1 and decodes to NOP, so [" -1", "010000"] gives [NOP, STP]. |
| StackMachine4.RpnCodes | pdf-files/a3-stack-machines/code/stack_machine.py:58-70 | The code of every token in order (`+ - * /` to 20..23, a hex digit to its value), or ValueError at the first other token. |
| StackMachine4.RpnListing | pdf-files/a3-stack-machines/code/stack_machine.py:58-73 | `rpn_to_instr_list`: the tokens' codes followed by 16 (STP), each as `bin(x)[2:].zfill(6)`. |
| StackMachine4.RunWords | pdf-files/a3-stack-machines/code/stack_machine.py:83-101 | The run loop: push an operand (clearing the flag), run an instruction; stop at the first exception or at the first STP. |
| StackMachine4.Simulate | pdf-files/a3-stack-machines/code/stack_machine.py:75-101 | `simulate_instructions`: translate an RPN string or take the listing, parse every line, then run from an empty stack and a clear flag. |
| StackMachine4.RenderRoundTrip | pdf-files/a3-stack-machines/code/stack_machine.py:73 | Reading `bin(x)[2:].zfill(6)` back in base 2 gives x. |
| StackMachine4.BitCharsRoundTrip | pdf-files/a3-stack-machines/code/stack_machine.py:73 | The characters written for a bit string are binary digits, and read back as the same bits. |
| StackMachine4.RpnCodesFail | pdf-files/a3-stack-machines/code/stack_machine.py:58-70 | `rpn_to_instr_list` raises ValueError exactly when some token is neither `+ - * /` nor a hexadecimal digit. Otherwise each token gets its own code. |
| StackMachine4.TokenDecodes | pdf-files/a3-stack-machines/code/stack_machine.py:59-70 | A token has a code exactly when it stands for a word (`+ - * /` to ADD, SUB, MUL and DIV; a hex digit to its number), and that code decodes to the word. |
| StackMachine4.ListingRoundTrip | pdf-files/a3-stack-machines/code/stack_machine.py:55-73 | Parsing the output of `rpn_to_instr_list` gives the tokens' words in input order, followed by STP. |
| StackMachine4.StopsAtFirstStp | pdf-files/a3-stack-machines/code/stack_machine.py:83-96 | Nothing after the first STP is run: what follows it never changes the outcome. |
| StackMachine4.PrefixFails | pdf-files/a3-stack-machines/code/stack_machine.py:66-70 | Once a prefix of an expression holds a bad token, translating the whole expression raises. |
| StackMachine4.RpnDemo | pdf-files/a3-stack-machines/code/stack_machine.py:182-241 | Simulating "4223*+*2/" ends normally with the stack [16] and the flag clear. |
| StackMachine4.ListingDemo | pdf-files/a3-stack-machines/code/stack_machine.py:183-293 | Simulating the demo listing ends normally with [0, ' ', 'S', 'E', 'R'] and the flag clear. |
| StackMachine4.DemoCode | pdf-files/a3-stack-machines/code/stack_machine.py:183-200 | Each string of the demo listing reads as its code, and decodes to the word the trace shows for it. |
| StackMachine4.XorDemo | pdf-files/a3-stack-machines/code/stack_machine.py:258-260 | 10 ^ 100 == 110. |
| StackMachine4.DemoArithmetic | pdf-files/a3-stack-machines/code/stack_machine.py:264-278 | 110 >> 4 gives 6 and 6 % 4 gives 2, without a wrap. 2 ** 6 wraps to 0 and sets the flag. |
| StackMachine4.SixDigits | pdf-files/a3-stack-machines/code/stack_machine.py:56 | Six binary digits read in base 2 give their weighted sum, most significant first. |
| StackMachine4.StackMachine.constructor | pdf-files/a3-stack-machines/code/stack_machine.py:30-32 | A new machine has an empty stack and a clear flag. |
| StackMachine4.StackMachine.GetOperandsFromStack | pdf-files/a3-stack-machines/code/stack_machine.py:103-107 | The loop of pops returns what TakeOperands specifies and removes exactly those values, or pops nothing on ValueError. The flag is unchanged. |
| StackMachine4.StackMachine.RunInstruction | pdf-files/a3-stack-machines/code/stack_machine.py:109-179 | The new stack, the new flag and the return code or exception are those of Exec on the old stack and flag. |
| StackMachine4.StackMachine.RunWrapping | pdf-files/a3-stack-machines/code/stack_machine.py:120-151 | The ADD, SUB, MUL and EXP branches do what BinaryStep specifies with the old flag. |
| StackMachine4.StackMachine.RunClearing | pdf-files/a3-stack-machines/code/stack_machine.py:152-174 | The MOD, SHR and XOR branches do what BinaryStep specifies with the flag cleared first. |
| StackMachine4.StackMachine.RpnToInstrList | pdf-files/a3-stack-machines/code/stack_machine.py:58-73 | The loop over the tokens returns RpnListing: each token's code, then STP, as six-digit binary strings; or ValueError. |
| StackMachine4.StackMachine.SimulateInstructions | pdf-files/a3-stack-machines/code/stack_machine.py:75-101 | The final stack, flag and outcome are those of Simulate. Simulate starts empty and clear, pushes operands (clearing the flag), runs instructions and stops at the first STP. |
| StackMachine4.StackMachine.RunProgram | pdf-files/a3-stack-machines/code/stack_machine.py:83-101 | The loop over the decoded words leaves the stack, flag and outcome that RunWords gives from the old stack and flag. |
| HammingScript.Width | pdf-files/a1-hamming-code/code/hc.py:9 | `zip(*m)` stops at the shortest row: the width is the length of some row and at most every row's length, or 0 for no rows. |
| HammingScript.Transpose | pdf-files/a1-hamming-code/code/hc.py:7-9 | Entry (j, i) of the result is entry (i, j) of the matrix, with one result row per column. |
| HammingScript.TransposeInvolutive | pdf-files/a1-hamming-code/code/hc.py:7-9 | Transposing a rectangular matrix twice gives it back. |
| HammingScript.EncodeCombinesRows | pdf-files/a1-hamming-code/code/hc.py:41-43 | Bit j of `encode(a, G)` is the sum over i of a[i] * G[i][j], modulo 2, with one bit per column of G. |
| HammingScript.CheckMatricesAnnihilate | pdf-files/a1-hamming-code/code/hc.py:12-35 | Every row of G_non_sys is orthogonal modulo 2 to every row of H_non_sys, and likewise for G_sys and H_sys. |
| HammingScript.CodewordSyndromeZero | pdf-files/a1-hamming-code/code/hc.py:72-74 | Every code word of G has an all-zero syndrome under any check matrix orthogonal to G. |
| HammingScript.SystematicPrefix | pdf-files/a1-hamming-code/code/hc.py:24-29 | The first four bits of `encode(a, G_sys)` are a itself. |
| HammingScript.NonSysCodewordsEven | pdf-files/a1-hamming-code/code/hc.py:53-58 | Every code word of G_non_sys has an even number of ones, so the script's parity check always passes. |
| HammingScript.SyndromeNumberZero | pdf-files/a1-hamming-code/code/hc.py:80 | The syndrome number is 0 exactly when every syndrome bit is 0. |
| HammingScript.FlipUpdates | pdf-files/a1-hamming-code/code/hc.py:91-94 | The flip changes exactly bit k when k is a position of the vector, and nothing otherwise. |
| HammingScript.NonSysColumn | pdf-files/a1-hamming-code/code/hc.py:18-22 | In H_non_sys, the first three rows of column i spell i + 1 (0 for the last column), and the last row is 1. |
| HammingScript.SysColumn | pdf-files/a1-hamming-code/code/hc.py:30-34 | In H_sys, columns 3 to 6 have a nonzero syndrome number over a 0 in the last row. |
| HammingScript.FlipSyndrome | pdf-files/a1-hamming-code/code/hc.py:91-97 | Flipping bit i adds column i of H to the syndrome, modulo 2. |
| HammingScript.ReadSyndrome | pdf-files/a1-hamming-code/code/hc.py:79-80 | Unpacking the syndrome gives the syndrome number of its first bits and the overall parity in its last bit. |
| HammingScript.Encode | pdf-files/a1-hamming-code/code/hc.py:41-43 | `encode(a, G)`: bit j is the dot product of a with column j of G, modulo 2; one bit per column. |
| HammingScript.GetSyndrome | pdf-files/a1-hamming-code/code/hc.py:72-74 | `get_syndrome(x, H)`: bit i is the dot product of x with row i of H, modulo 2; one bit per row. |
| HammingScript.Correct | pdf-files/a1-hamming-code/code/hc.py:89-104 | The correction loop: while the syndrome number is at least 1 over odd parity, flip bit number - 1; stop with "Corrected!" on a clean syndrome, with "Multiple errors" on a nonzero number over even parity. A vector the loop does not enter is returned as it is. The fuel bounds the passes (None when it runs out). |
| HammingScript.Diagnose | pdf-files/a1-hamming-code/code/hc.py:79-106 | The classification of one vector: no error (number 0, parity 0), an error in the parity bit (number 0, parity 1), the correction loop (number at least 1, parity 1), otherwise multiple errors. ValueError when H has no rows to unpack. |
| HammingScript.NonSysOnePass | pdf-files/a1-hamming-code/code/hc.py:89-104 | With H_non_sys, the loop never takes a second pass: from any eight-bit vector it enters, the first flip clears the whole syndrome and the vector is reported corrected. |
| HammingScript.NonSysFuelIrrelevant | pdf-files/a1-hamming-code/code/hc.py:79-106 | With H_non_sys, every eight-bit vector gets a verdict, the same one for any fuel of at least 1. |
| HammingScript.SysFuelIrrelevant | pdf-files/a1-hamming-code/code/hc.py:79-106 | With H_sys, every eight-bit vector gets a verdict, the same one for any fuel of at least 3: the loop ends within three passes. |
| HammingScript.SysSettles | pdf-files/a1-hamming-code/code/hc.py:89-104 | With H_sys, a vector the loop enters leaves it after at most three passes (two for numbers 4 and 7, one for 1 to 3), reported corrected or as multiple errors, whatever the fuel beyond that. |
| HammingScript.SysStep | pdf-files/a1-hamming-code/code/hc.py:89-98 | One pass under a matrix with H_sys's columns: numbers 1 and 2 lead to number 7 over even parity, 3 to a clean syndrome, and 4 to 7 to another pass that needs one fewer. |
| HammingScript.SysColumnsOfHSys | pdf-files/a1-hamming-code/code/hc.py:30-34 | The first seven columns of H_sys are those the pass analysis assumes. |
| HammingScript.Status4 | pdf-files/a1-hamming-code/code/hc.py:79-80 | With four rows, the syndrome number is s0 + 2 s1 + 4 s2 and the parity is s3. |
| HammingScript.CheckWord | pdf-files/a1-hamming-code/code/hc.py:78-106 | The classification of one received vector is Diagnose: no error, parity-bit error, the correction loop, or multiple errors. With no rows in H, the unpacking raises ValueError. |
| HammingScript.CorrectionLoop | pdf-files/a1-hamming-code/code/hc.py:89-104 | The while loop that reassigns the vector, the syndrome number and the parity computes Correct. |
| HammingScript.CodewordsPass | pdf-files/a1-hamming-code/code/hc.py:77-106 | Every code word of either pair, checked with its own check matrix, is reported as "no error" and left unchanged. |
| HammingScript.SingleErrorCorrected | pdf-files/a1-hamming-code/code/hc.py:77-106 | With H_non_sys, a code word with one flipped bit is put right in one pass, for bits 0 to 6. A flipped bit 7 is reported as an error in the parity bit. |
| HammingScript.DoubleErrorDetected | pdf-files/a1-hamming-code/code/hc.py:77-106 | With H_non_sys, a code word with two flipped bits is reported as multiple errors and left unchanged. |
| HammingScript.SystematicCheckMisreports | pdf-files/a1-hamming-code/code/hc.py:79-97 | With H_sys, a G_sys code word with one flipped bit at positions 3 to 6 is reported as multiple errors. |
| HammingScript.ReceivedAsWritten | pdf-files/a1-hamming-code/code/hc.py:64-106 | With H_sys, as the script runs: word 1 is a parity-bit error and word 2 has no error. Word 3 has bit 0 flipped, then is multiple errors. Word 4 is "corrected" by three flips to 1110 0001. |
| HammingScript.ReceivedNonSys | pdf-files/a1-hamming-code/code/hc.py:64-106 | With H_non_sys, as the heading says: word 1 is a parity-bit error and word 2 has no error. Word 3 is multiple errors. Word 4 is corrected by one flip to 0101 0101. |
| ShuntingYard.PopsBeforeTable | pdf-files/a3-stack-machines/code/shunting-yard.py:9-14 | With the operator table, an operator pops exactly the stacked operators of at least its own precedence. `*` and `/` have precedence 3, `+` and `-` have precedence 2. |
| ShuntingYard.StripSpaces | pdf-files/a3-stack-machines/code/shunting-yard.py:18 | `replace(" ", "")` leaves no space and keeps every other character, the same number of times. |
| ShuntingYard.StripSpacesAppend | pdf-files/a3-stack-machines/code/shunting-yard.py:18 | `replace(" ", "")` works piece by piece: stripping a + b gives the stripped a followed by the stripped b. |
| ShuntingYard.StripSpacesChar | pdf-files/a3-stack-machines/code/shunting-yard.py:18 | On one character, a space becomes nothing and any other character stays. Together with StripSpacesAppend this determines the stripped string of every input. |
| ShuntingYard.StripSpacesKeeps | pdf-files/a3-stack-machines/code/shunting-yard.py:18 | Input without spaces is scanned as it is. |
| ShuntingYard.PopOperators | pdf-files/a3-stack-machines/code/shunting-yard.py:27-38 | The inner loop for an operator: pop to the output, top first, while the stacked token is an operator that binds at least as tightly. |
| ShuntingYard.PopOperatorsSpec | pdf-files/a3-stack-machines/code/shunting-yard.py:27-38 | The inner loop pops the longest run of stacked operators that bind at least as tightly. It appends them to the output top first and stops at a token that does not. |
| ShuntingYard.PushOperator | pdf-files/a3-stack-machines/code/shunting-yard.py:25-39 | The operator branch, popping and then pushing, gives the state ScanToken specifies. |
| ShuntingYard.PopToParen | pdf-files/a3-stack-machines/code/shunting-yard.py:42-47 | The `)` branch: pop to the output until a `(`, which is dropped; IndexError on reaching an empty stack. |
| ShuntingYard.PopToParenSpec | pdf-files/a3-stack-machines/code/shunting-yard.py:42-47 | `)` fails with IndexError exactly when no `(` is on the stack. Otherwise it drops the nearest `(` and appends the tokens above it to the output, top first. |
| ShuntingYard.CloseParen | pdf-files/a3-stack-machines/code/shunting-yard.py:42-47 | The `)` branch gives the state or failure ScanToken specifies. |
| ShuntingYard.ScanToken | pdf-files/a3-stack-machines/code/shunting-yard.py:22-49 | One pass of the for loop: a digit goes to the output, an operator pops then is pushed, `(` is pushed, `)` pops to its `(`, anything else raises "Unknown token". |
| ShuntingYard.Scan | pdf-files/a3-stack-machines/code/shunting-yard.py:22-49 | The for loop over the tokens; the first exception ends it. |
| ShuntingYard.Drain | pdf-files/a3-stack-machines/code/shunting-yard.py:50-51 | The final loop: the output followed by the stack, top first. |
| ShuntingYard.Postfix | pdf-files/a3-stack-machines/code/shunting-yard.py:17-51 | The output list: scan the input without spaces from an empty stack and output, then drain. |
| ShuntingYard.Rpn | pdf-files/a3-stack-machines/code/shunting-yard.py:17-52 | What `shunting_yard` returns (the output joined with spaces) or raises. |
| ShuntingYard.Join | pdf-files/a3-stack-machines/code/shunting-yard.py:52 | `" ".join` puts token k at position 2k, with single spaces between the tokens. |
| ShuntingYard.ShuntingYard | pdf-files/a3-stack-machines/code/shunting-yard.py:17-52 | The method, with its stack and output lists, returns or raises what Rpn specifies. |
| ShuntingYard.ScanErrors | pdf-files/a3-stack-machines/code/shunting-yard.py:42-49 | A failing scan names a token that is not known, or fails with IndexError on input holding a `)`. |
| ShuntingYard.PostfixSucceeds | pdf-files/a3-stack-machines/code/shunting-yard.py:22-49 | The conversion returns exactly when every character other than a space is a digit, an operator or a parenthesis, and no prefix closes more parentheses than it opens. The unknown token reported is a character of the input. |
| ShuntingYard.PostfixContents | pdf-files/a3-stack-machines/code/shunting-yard.py:22-51 | The output holds the input's digits and operators as a multiset, no `)`, and one `(` per unmatched `(`. For balanced input it is exactly the input's multiset without spaces and parentheses. |
| ShuntingYard.PostfixDigits | pdf-files/a3-stack-machines/code/shunting-yard.py:23-24 | The digits of the output are the digits of the input, in input order. |
| ShuntingYard.ScanOrdered | pdf-files/a3-stack-machines/code/shunting-yard.py:27-39 | Throughout the scan, adjacent operators on the stack bind strictly tighter towards the top. |
| ShuntingYard.Example | pdf-files/a3-stack-machines/code/shunting-yard.py:55-56 | "4*(7+8*9)-1" becomes "4 7 8 9 * + * 1 -". |

## Left out

- The `print` calls, the module-level demo drivers and the traces they print. The demo runs of the 4-bit machine, the shunting-yard's first example and the Hamming script's received words are proved as lemmas instead.
- The second and third shunting-yard examples (shunting-yard.py:57-58) are not proved. The comment outputs (shunting-yard.py:64-67) omit the spaces that the join inserts, and are not modelled.
- hamming_code.py is not part of this model: its class cannot be constructed, and its methods are `pass`. The test files are not part of this model either.
- Instruction's `__str__`, the `NOP = None` enum value (modelled as a NOP with no code) and the unused ctypes import are not modelled.
- The text of exception messages is not modelled, only the exception's class. The assertions at shunting-yard.py:44 and 46 cannot fail once the `stack[-1]` index has succeeded, so they are not modelled.
- The tuple branch of `_push` (stack_machine.py:128-129) is not modelled: `do` and the instructions push only ints and strings.
- HammingScript.CorrectionLoop: takes a fuel bound and returns None when more flips than fuel would be needed. The script's loop has no bound. For eight-bit vectors under either matrix the loop provably ends (SysFuelIrrelevant, NonSysFuelIrrelevant). A vector shorter than the syndrome number needs can make the script flip an index past its end; the flip changes nothing and the script's loop never ends, which the model shows as running out of fuel.
- StackMachine4.BinaryStep: a str of two or more characters that holds '%' is a Python format string when it is MOD's left operand (`'%d' % 5` is '5'). The model raises TypeError for it, as for any other str. No run puts such a str on the stack: parse_byte yields single characters, and every instruction pushes ints or copies (SimulateKeepsChars).
- StackMachine4.StrOperands: stated only for stacks whose strs are single characters, for the reason above.
- StackMachine8.ParseByte and StackMachine8.StackMachine.Do: code words are tuples of 0 and 1. The source joins `str(i)` for any ints, so a tuple holding 10 shifts the digits and one holding -1 raises ValueError. Such tuples are not modelled.
- StackMachine4.StackMachine.RunInstruction: EXP with a negative exponent gives a Python float (or ZeroDivisionError for base 0). The float case ends in the marker FloatNotModelled, and the run is not followed further.
- ShuntingYard.ShuntingYard: `str.isnumeric` is modelled for the ASCII digits only. Other Unicode numeric characters count as unknown tokens.
- Python.ParseBinary: `int(s, 2)` also reads non-ASCII Unicode decimal digits (such as Arabic-Indic digits) as binary digits when they are 0 or 1. Only the ASCII digits are modelled; other characters raise ValueError in the model.
- StackMachine4.StackMachine.RpnToInstrList: `int(token, 16)` is modelled for the ASCII hexadecimal digits only. Unicode decimal digits are treated as bad tokens.

## Findings

| source | as written | input that shows it | evidently intended | confidence | as-written member | corrected member |
|---|---|---|---|---|---|---|
| pdf-files/a1-hamming-code/code/hc.py:77-97 | The section headed "check with non-systematic matrix" computes syndromes with H_sys, but reads the syndrome number as a bit position. Only H_non_sys has columns that spell their positions. | The script's word 4, 1101 0101: one flip of bit 0 away from the G_non_sys code word 0101 0101. With H_sys it is reported "Corrected!" after three flips, to 1110 0001. Also, a G_sys code word with a single error at positions 3 to 6 is reported as multiple errors. | Check with H_non_sys. A single error at bits 0 to 6 is then corrected in one pass, the parity bit is recognised, and two errors are detected. | high (not executed) | HammingScript.ReceivedAsWritten | HammingScript.ReceivedNonSys |
