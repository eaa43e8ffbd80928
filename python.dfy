/**
 * The Python runtime values, exceptions and integer operators that the two
 * stack machines depend on.
 */
module Python {
  import opened Wrappers
  import opened Bits

  /** A value the machines push or pop: a Python int or a Python str. */
  datatype Value = Int(i: int) | Str(s: string)

  /**
   * The exceptions the machines raise. FloatNotModelled is not a Python
   * exception: it marks the point where the source would go on with a Python
   * float, which the model does not follow.
   */
  datatype PyError = IndexError | ValueError | TypeError | ZeroDivisionError | FloatNotModelled

  /**
   * What an arithmetic operator raises when an operand is a str and the left
   * operand, if a str, is a single character. Only `%` with a str on its left
   * is not a plain type error: it is string formatting, where a lone '%' is an
   * incomplete format (ValueError) and any other character leaves the right
   * operand unconverted (TypeError).
   */
  function StrOperandError(isMod: bool, left: Value): PyError
  {
    if isMod && left == Str("%") then ValueError else TypeError
  }

  /** Python's a // b (rounds toward minus infinity). */
  function FloorDiv(a: int, b: int): (q: int)
    requires b != 0
    ensures b > 0 ==> b * q <= a < b * q + b
    ensures b < 0 ==> b * q >= a > b * q + b
  {
    if b > 0 then a / b else (-a) / (-b)
  }

  /** Python's a % b (the remainder takes the sign of b). */
  function FloorMod(a: int, b: int): (m: int)
    requires b != 0
    ensures b > 0 ==> 0 <= m < b
    ensures b < 0 ==> b < m <= 0
    ensures a == b * FloorDiv(a, b) + m
  {
    a - b * FloorDiv(a, b)
  }

  /** Python's b ** e for a non-negative exponent (0 ** 0 is 1). */
  function Pow(b: int, e: nat): (r: int)
    ensures b >= 0 ==> r >= 0
  {
    if e == 0 then 1 else b * Pow(b, e - 1)
  }

  /** The exponent law: b ** (e + f) == b ** e * b ** f. */
  lemma {:induction false} PowAdd(b: int, e: nat, f: nat)
    ensures Pow(b, e + f) == Pow(b, e) * Pow(b, f)
    decreases e
  {
    if e > 0 {
      PowAdd(b, e - 1, f);
      assert Pow(b, e + f) == b * Pow(b, e - 1 + f);
      MulAssociative(b, Pow(b, e - 1), Pow(b, f));
    }
  }

  /** Multiplication regroups freely. */
  lemma MulAssociative(x: int, y: int, z: int)
    ensures x * (y * z) == (x * y) * z
  {
  }

  /** Python's a >> k for a non-negative shift count. */
  function ShiftRight(a: int, k: nat): (r: int)
    ensures Pow2(k) * r <= a < Pow2(k) * r + Pow2(k)
  {
    a / Pow2(k)
  }

  /**
   * Python's a ^ b on ints of any sign (two's complement of unbounded width):
   * the result is negative exactly when one operand is.
   */
  function Xor(a: int, b: int): (r: int)
    ensures r < 0 <==> (a < 0) != (b < 0)
  {
    if a >= 0 && b >= 0 then NatXor(a, b)
    else if a < 0 && b < 0 then NatXor(-a - 1, -b - 1)
    else if a < 0 then -1 - NatXor(-a - 1, b)
    else -1 - NatXor(a, -b - 1)
  }

  /** Python's (a >> k) % 2: bit k of a in two's complement. */
  function BitAt(a: int, k: nat): (r: int)
    ensures 0 <= r <= 1
    ensures r == (a / Pow2(k)) % 2
  {
    FloorMod(ShiftRight(a, k), 2)
  }

  /** Each bit of a ^ b is set exactly when it is set in one of a and b. */
  lemma XorBits(a: int, b: int, k: nat)
    ensures BitAt(Xor(a, b), k) == (BitAt(a, k) + BitAt(b, k)) % 2
  {
    if a >= 0 && b >= 0 {
      NatXorBit(a, b, k);
    } else if a < 0 && b < 0 {
      NegativeXor(a, b, k);
    } else if a < 0 {
      MixedXor(a, b, k);
    } else {
      MixedXor(b, a, k);
      XorCommutes(a, b);
    }
  }

  /** a ^ b == b ^ a. */
  lemma XorCommutes(a: int, b: int)
    ensures Xor(a, b) == Xor(b, a)
  {
    if a >= 0 && b >= 0 {
      NatXorCommutes(a, b);
    } else if a < 0 && b < 0 {
      NatXorCommutes(-a - 1, -b - 1);
    } else if a < 0 {
      NatXorCommutes(-a - 1, b);
    } else {
      NatXorCommutes(a, -b - 1);
    }
  }

  /** XorBits for two negative operands. */
  lemma NegativeXor(a: int, b: int, k: nat)
    requires a < 0 && b < 0
    ensures BitAt(Xor(a, b), k) == (BitAt(a, k) + BitAt(b, k)) % 2
  {
    var n1, n2 := -a - 1, -b - 1;
    assert a == -1 - n1 && b == -1 - n2 && Xor(a, b) == NatXor(n1, n2);
    NegativeXorBits(n1, n2, k);
  }

  /** XorBits for a negative a and a non-negative b. */
  lemma MixedXor(a: int, b: int, k: nat)
    requires a < 0 <= b
    ensures BitAt(Xor(a, b), k) == (BitAt(a, k) + BitAt(b, k)) % 2
  {
    var n := -a - 1;
    assert a == -1 - n && Xor(a, b) == -1 - NatXor(n, b);
    MixedXorBits(n, b, k);
  }

  /** Two negative operands: -1 - n1 ^ -1 - n2 == n1 ^ n2, bit by bit. */
  lemma NegativeXorBits(n1: nat, n2: nat, k: nat)
    ensures (NatXor(n1, n2) / Pow2(k)) % 2 == (((-1 - n1) / Pow2(k)) % 2 + ((-1 - n2) / Pow2(k)) % 2) % 2
  {
    NatXorBit(n1, n2, k);
    Complement(n1, k);
    Complement(n2, k);
    BitSums((n1 / Pow2(k)) % 2, (n2 / Pow2(k)) % 2);
  }

  /** One negative operand: -1 - n ^ b == -1 - (n ^ b), bit by bit. */
  lemma MixedXorBits(n: nat, b: nat, k: nat)
    ensures ((-1 - NatXor(n, b)) / Pow2(k)) % 2 == (((-1 - n) / Pow2(k)) % 2 + (b / Pow2(k)) % 2) % 2
  {
    NatXorBit(n, b, k);
    Complement(n, k);
    Complement(NatXor(n, b), k);
    BitSums((n / Pow2(k)) % 2, (b / Pow2(k)) % 2);
  }

  /** Inverting one bit of a sum mod 2 inverts the sum; inverting both keeps it. */
  lemma BitSums(u: int, v: int)
    requires 0 <= u <= 1 && 0 <= v <= 1
    ensures 1 - (u + v) % 2 == ((1 - u) + v) % 2
    ensures (u + v) % 2 == ((1 - u) + (1 - v)) % 2
  {
  }

  // ---------------------------------------------------------------------------
  // int(s, 2)

  predicate IsBinaryDigit(c: char)
  {
    c == '0' || c == '1'
  }

  /** The bits of a string, '1' read as 1 and any other character as 0. */
  function CharBits(s: string): (bs: seq<Bit>)
    ensures |bs| == |s|
    ensures forall i :: 0 <= i < |s| ==> bs[i] == if s[i] == '1' then 1 else 0
  {
    if s == [] then [] else CharBits(s[..|s| - 1]) + [if s[|s| - 1] == '1' then 1 else 0]
  }

  /**
   * The characters int() strips from both ends of its argument: the ASCII
   * whitespace \t \n \v \f \r and space, and the non-ASCII Unicode spaces,
   * which it turns into spaces first. The separators \x1c to \x1f are
   * whitespace to str.isspace but are not stripped.
   */
  predicate IsWhitespace(c: char)
  {
    c == ' ' || '\t' <= c <= '\r' || c == '\U{85}' || c == '\U{a0}' || c == '\U{1680}'
    || '\U{2000}' <= c <= '\U{200a}' || c == '\U{2028}' || c == '\U{2029}' || c == '\U{202f}'
    || c == '\U{205f}' || c == '\U{3000}'
  }

  predicate AllWhitespace(s: string)
  {
    forall i :: 0 <= i < |s| ==> IsWhitespace(s[i])
  }

  /** The position of the first character at or after i that int() does not strip. */
  function StripStart(s: string, i: nat): (k: nat)
    requires i <= |s|
    ensures i <= k <= |s|
    decreases |s| - i
  {
    if i < |s| && IsWhitespace(s[i]) then StripStart(s, i + 1) else i
  }

  /** The position just past the last character before e, and not before lo, that int() does not strip. */
  function StripEnd(s: string, lo: nat, e: nat): (k: nat)
    requires lo <= e <= |s|
    ensures lo <= k <= e
    decreases e
  {
    if e > lo && IsWhitespace(s[e - 1]) then StripEnd(s, lo, e - 1) else e
  }

  /** s without the whitespace at either end. */
  function Strip(s: string): string
  {
    var a := StripStart(s, 0);
    s[a..StripEnd(s, a, |s|)]
  }

  /** A sign: one plus or minus, or nothing. */
  predicate IsSign(sign: string)
  {
    sign == [] || (|sign| == 1 && (sign[0] == '+' || sign[0] == '-'))
  }

  /** A base-2 prefix: 0b or 0B, optionally followed by one underscore, or nothing. */
  predicate IsPrefix(p: string)
  {
    p == [] || (2 <= |p| <= 3 && p[0] == '0' && (p[1] == 'b' || p[1] == 'B') && (|p| == 3 ==> p[2] == '_'))
  }

  /** How many characters of sign int() reads at the start of stripped text. */
  function SignLength(t: string): nat
  {
    if t != [] && (t[0] == '-' || t[0] == '+') then 1 else 0
  }

  /** How many characters of base prefix int(s, 2) reads at position i: 0b or 0B, and one underscore after it if there is one. */
  function PrefixLength(t: string, i: nat): nat
  {
    if i + 2 <= |t| && t[i] == '0' && (t[i + 1] == 'b' || t[i + 1] == 'B') then
      if i + 3 <= |t| && t[i + 2] == '_' then 3 else 2
    else 0
  }

  /** Where the digits start in stripped text: after the sign and the prefix. */
  function DigitsStart(t: string): (k: nat)
    ensures k <= |t|
  {
    SignLength(t) + PrefixLength(t, SignLength(t))
  }

  /** What int(s, 2) reads as digits after stripping. */
  function Digits(t: string): string
  {
    t[DigitsStart(t)..]
  }

  /** Binary digits with single underscores between them. */
  predicate DigitGroups(d: string)
  {
    && d != [] && d[0] != '_' && d[|d| - 1] != '_'
    && (forall i :: 0 <= i < |d| ==> IsBinaryDigit(d[i]) || d[i] == '_')
    && (forall i :: 0 <= i < |d| - 1 ==> !DoubleUnderscore(d, i))
  }

  predicate DoubleUnderscore(d: string, i: nat)
    requires i + 1 < |d|
  {
    d[i] == '_' && d[i + 1] == '_'
  }

  /** d with its underscores removed, the other characters kept in order. */
  function RemoveUnderscores(d: string): string
  {
    if d == [] then [] else (if d[0] == '_' then [] else [d[0]]) + RemoveUnderscores(d[1..])
  }

  /**
   * int(s, 2): strip whitespace, read an optional sign, an optional 0b or 0B
   * prefix (which may be followed by one underscore), then binary digits
   * with single underscores between them; anything else is a ValueError.
   */
  function ParseBinary(s: string): (r: Result<int, PyError>)
    ensures r.Failure? ==> r.error == ValueError
  {
    ReadStripped(Strip(s))
  }

  /** int() on text already stripped of whitespace. */
  function ReadStripped(t: string): Result<int, PyError>
  {
    var d := Digits(t);
    if !DigitGroups(d) then Failure(ValueError)
    else
      var n: int := ToNat(CharBits(RemoveUnderscores(d)));
      if t[0] == '-' then Success(-n) else Success(n)
  }

  /** int(s, 2) once the stripped text t and its digit part d are known, and d is accepted. */
  lemma ReadsAs(s: string, t: string, d: string, v: int)
    requires Strip(s) == t && Digits(t) == d && DigitGroups(d)
    requires var n: int := ToNat(CharBits(RemoveUnderscores(d))); v == if t[0] == '-' then -n else n
    ensures ParseBinary(s) == Success(v)
  {
    StrippedRead(s, t);
    DigitsRead(t, d);
  }

  lemma StrippedRead(s: string, t: string)
    requires Strip(s) == t
    ensures ParseBinary(s) == ReadStripped(t)
  {
  }

  lemma DigitsRead(t: string, d: string)
    requires Digits(t) == d && DigitGroups(d)
    ensures var n: int := ToNat(CharBits(RemoveUnderscores(d)));
      ReadStripped(t) == Success(if t[0] == '-' then -n else n)
  {
  }

  /** A nonempty string of binary digits is read as the number those bits spell. */
  lemma PlainDigits(s: string)
    requires s != [] && forall i :: 0 <= i < |s| ==> IsBinaryDigit(s[i])
    ensures ParseBinary(s) == Success(ToNat(CharBits(s)))
  {
    PlainStripped(s);
    PlainRead(s);
  }

  /** Binary digits carry no whitespace to strip. */
  lemma PlainStripped(s: string)
    requires s != [] && forall i :: 0 <= i < |s| ==> IsBinaryDigit(s[i])
    ensures ParseBinary(s) == ReadStripped(s)
  {
    Untrimmed(s);
    StrippedRead(s, s);
  }

  /** Binary digits carry no sign, prefix or underscore: they are read as they are. */
  lemma PlainRead(s: string)
    requires s != [] && forall i :: 0 <= i < |s| ==> IsBinaryDigit(s[i])
    ensures ReadStripped(s) == Success(ToNat(CharBits(s)))
  {
    NoUnderscores(s);
    DigitStart(s);
    PlainGroups(s);
    DigitsRead(s, s);
  }

  /** Text that starts and ends with something other than whitespace is not stripped. */
  lemma Untrimmed(s: string)
    requires s != [] && !IsWhitespace(s[0]) && !IsWhitespace(s[|s| - 1])
    ensures Strip(s) == s
  {
    StartAt(s, 0, 0);
    EndAt(s, 0, |s|, |s|);
  }

  /** Stripping from i stops at a: everything from i to a is whitespace and a is not. */
  lemma {:induction false} StartAt(s: string, i: nat, a: nat)
    requires i <= a <= |s| && forall j :: i <= j < a ==> IsWhitespace(s[j])
    requires a < |s| ==> !IsWhitespace(s[a])
    ensures StripStart(s, i) == a
    decreases a - i
  {
    if i < a {
      StartAt(s, i + 1, a);
    }
  }

  /** Stripping back from e stops at b: everything from b to e is whitespace and the character before b is not. */
  lemma {:induction false} EndAt(s: string, lo: nat, b: nat, e: nat)
    requires lo <= b <= e <= |s| && forall j :: b <= j < e ==> IsWhitespace(s[j])
    requires b > lo ==> !IsWhitespace(s[b - 1])
    ensures StripEnd(s, lo, e) == b
    decreases e - b
  {
    if b < e {
      EndAt(s, lo, b, e - 1);
    }
  }

  /** What stripping skips from i is whitespace. */
  lemma {:induction false} StartSkips(s: string, i: nat)
    requires i <= |s|
    ensures forall j :: i <= j < StripStart(s, i) ==> IsWhitespace(s[j])
    decreases |s| - i
  {
    if i < |s| && IsWhitespace(s[i]) {
      StartSkips(s, i + 1);
    }
  }

  /** What stripping skips back from e is whitespace. */
  lemma {:induction false} EndSkips(s: string, lo: nat, e: nat)
    requires lo <= e <= |s|
    ensures forall j :: StripEnd(s, lo, e) <= j < e ==> IsWhitespace(s[j])
    decreases e
  {
    if e > lo && IsWhitespace(s[e - 1]) {
      EndSkips(s, lo, e - 1);
    }
  }

  /** Text that starts with a digit followed by a digit or an underscore has no sign and no prefix. */
  lemma DigitStart(j: string)
    requires j != [] && IsBinaryDigit(j[0])
    requires |j| >= 2 ==> IsBinaryDigit(j[1]) || j[1] == '_'
    ensures DigitsStart(j) == 0 && Digits(j) == j
  {
  }

  lemma PlainGroups(s: string)
    requires s != [] && forall i :: 0 <= i < |s| ==> IsBinaryDigit(s[i])
    ensures DigitGroups(s)
  {
    forall i | 0 <= i < |s| - 1
      ensures !DoubleUnderscore(s, i)
    {
      assert IsBinaryDigit(s[i]);
    }
  }

  lemma {:induction false} NoUnderscores(s: string)
    requires forall i :: 0 <= i < |s| ==> IsBinaryDigit(s[i])
    ensures RemoveUnderscores(s) == s
    decreases |s|
  {
    if s != [] {
      NoUnderscores(s[1..]);
      assert s == [s[0]] + s[1..];
    }
  }

  /**
   * A binary literal as int(s, 2) reads it: leading whitespace, a sign, a
   * prefix, groups of binary digits joined by single underscores, and
   * trailing whitespace.
   */
  datatype BinaryLiteral = BinaryLiteral(lead: string, sign: string, prefix: string, groups: seq<string>, trail: string)

  predicate BinaryGroups(groups: seq<string>)
  {
    && |groups| >= 1
    && forall k :: 0 <= k < |groups| ==>
      groups[k] != [] && forall i :: 0 <= i < |groups[k]| ==> IsBinaryDigit(groups[k][i])
  }

  predicate WellFormed(l: BinaryLiteral)
  {
    && AllWhitespace(l.lead) && AllWhitespace(l.trail)
    && IsSign(l.sign) && IsPrefix(l.prefix) && BinaryGroups(l.groups)
  }

  /** The groups joined by underscores. */
  function JoinGroups(groups: seq<string>): string
    requires |groups| >= 1
  {
    if |groups| == 1 then groups[0] else groups[0] + "_" + JoinGroups(groups[1..])
  }

  /** The groups joined with nothing between them. */
  function ConcatGroups(groups: seq<string>): string
  {
    if groups == [] then "" else groups[0] + ConcatGroups(groups[1..])
  }

  function LiteralText(l: BinaryLiteral): string
    requires |l.groups| >= 1
  {
    l.lead + l.sign + l.prefix + JoinGroups(l.groups) + l.trail
  }

  /** The value of a literal: its digits read in base 2, negated under a minus sign. */
  function LiteralValue(l: BinaryLiteral): int
  {
    var n: int := ToNat(CharBits(ConcatGroups(l.groups)));
    if l.sign == "-" then -n else n
  }

  /** Every well-formed literal is read as its value. */
  lemma LiteralParses(l: BinaryLiteral)
    requires WellFormed(l)
    ensures ParseBinary(LiteralText(l)) == Success(LiteralValue(l))
  {
    var j := JoinGroups(l.groups);
    var core := l.sign + l.prefix + j;
    LiteralStripped(l);
    LiteralSign(l);
    ReadsAs(LiteralText(l), core, j, LiteralValue(l));
  }

  /** Stripped of its whitespace, a literal is its sign, prefix and groups, and int() reads past the first two. */
  lemma LiteralStripped(l: BinaryLiteral)
    requires WellFormed(l)
    ensures var j := JoinGroups(l.groups); var core := l.sign + l.prefix + j;
      Strip(LiteralText(l)) == core && Digits(core) == j && DigitGroups(j)
  {
    var j := JoinGroups(l.groups);
    var core := l.sign + l.prefix + j;
    TextParts(l.lead, l.sign, l.prefix, j, l.trail);
    JoinedGroups(l.groups);
    SignedCore(l.sign, l.prefix, j);
    StripLiteral(l.lead, core, l.trail);
  }

  /** A literal's value is the value of its joined groups, negated when the stripped text starts with a minus. */
  lemma LiteralSign(l: BinaryLiteral)
    requires WellFormed(l)
    ensures var j := JoinGroups(l.groups); var core := l.sign + l.prefix + j;
      var n: int := ToNat(CharBits(RemoveUnderscores(j)));
      LiteralValue(l) == if core[0] == '-' then -n else n
  {
    var j := JoinGroups(l.groups);
    JoinedGroups(l.groups);
    SignedCore(l.sign, l.prefix, j);
  }

  lemma TextParts(lead: string, sign: string, prefix: string, j: string, trail: string)
    ensures lead + sign + prefix + j + trail == lead + (sign + prefix + j) + trail
  {
  }

  /** Whitespace around text that starts and ends with something else is what int() strips. */
  lemma StripLiteral(lead: string, core: string, trail: string)
    requires AllWhitespace(lead) && AllWhitespace(trail)
    requires core != [] && !IsWhitespace(core[0]) && !IsWhitespace(core[|core| - 1])
    ensures Strip(lead + core + trail) == core
  {
    var s := lead + core + trail;
    var a, b := |lead|, |lead| + |core|;
    assert forall j :: 0 <= j < a ==> s[j] == lead[j];
    assert s[a] == core[0] && s[b - 1] == core[|core| - 1];
    StartAt(s, 0, a);
    assert forall j :: b <= j < |s| ==> s[j] == trail[j - b];
    EndAt(s, a, b, |s|);
    assert s[a..b] == core;
  }

  /** Every string int(s, 2) accepts is a well-formed literal, read as its value. */
  lemma ParsedIsLiteral(s: string)
    requires ParseBinary(s).Success?
    ensures exists l :: WellFormed(l) && LiteralText(l) == s && LiteralValue(l) == ParseBinary(s).value
  {
    var t := Strip(s);
    AcceptedDigits(s);
    var l := StrippedLiteral(s);
    ReadsAs(s, t, Digits(t), LiteralValue(l));
  }

  lemma AcceptedDigits(s: string)
    requires ParseBinary(s).Success?
    ensures DigitGroups(Digits(Strip(s)))
  {
  }

  /** Text whose digit part int() accepts, taken apart into the literal it spells. */
  lemma StrippedLiteral(s: string) returns (l: BinaryLiteral)
    requires DigitGroups(Digits(Strip(s)))
    ensures WellFormed(l) && LiteralText(l) == s
    ensures var t := Strip(s); var n: int := ToNat(CharBits(RemoveUnderscores(Digits(t))));
      LiteralValue(l) == if t[0] == '-' then -n else n
  {
    var t := Strip(s);
    var lead, trail := StripParts(s);
    var sign, prefix, d := StrippedParts(t);
    var groups := SplitGroups(d);
    l := BinaryLiteral(lead, sign, prefix, groups, trail);
    TextParts(lead, sign, prefix, d, trail);
  }

  /** s is the whitespace int() strips from its start, what is left, and the whitespace stripped from its end. */
  lemma StripParts(s: string) returns (lead: string, trail: string)
    ensures AllWhitespace(lead) && AllWhitespace(trail) && s == lead + Strip(s) + trail
  {
    var a := StripStart(s, 0);
    var b := StripEnd(s, a, |s|);
    StartSkips(s, 0);
    EndSkips(s, a, |s|);
    lead, trail := s[..a], s[b..];
    assert s == lead + s[a..b] + trail;
  }

  /** Stripped text taken apart into its sign, its prefix and its digit part. */
  lemma StrippedParts(t: string) returns (sign: string, prefix: string, d: string)
    requires DigitGroups(Digits(t))
    ensures IsSign(sign) && IsPrefix(prefix) && d == Digits(t) && t == sign + prefix + d
    ensures t[0] == '-' <==> sign == "-"
  {
    var k := SignLength(t);
    var m := PrefixLength(t, k);
    sign, prefix, d := t[..k], t[k..k + m], t[k + m..];
    assert t == sign + prefix + d;
  }

  /**
   * The groups of a string of digit groups, split at its underscores; they
   * join back to it and hold its digits.
   */
  function SplitGroups(d: string): (groups: seq<string>)
    requires DigitGroups(d)
    ensures BinaryGroups(groups) && JoinGroups(groups) == d
    ensures ConcatGroups(groups) == RemoveUnderscores(d)
    decreases |d|
  {
    if '_' !in d then
      OneGroup(d)
    else
      var k := UnderscoreAt(d);
      var g, rest := d[..k], d[k + 1..];
      SplitJoin(d, k);
      SplitHead(d, k);
      SplitTail(d, k);
      var more := SplitGroups(rest);
      JoinCons(g, more);
      ConcatCons(g, more);
      GroupsCons(g, more);
      RemoveAfterGroup(g, rest);
      [g] + more
  }

  /** Digit groups without an underscore are one group. */
  function OneGroup(d: string): (groups: seq<string>)
    requires DigitGroups(d) && '_' !in d
    ensures groups == [d] && BinaryGroups(groups) && JoinGroups(groups) == d
    ensures ConcatGroups(groups) == RemoveUnderscores(d)
  {
    NoUnderscores(d);
    ConcatCons(d, []);
    [d]
  }

  lemma SplitJoin(d: string, k: nat)
    requires k < |d| && d[k] == '_'
    ensures d == d[..k] + "_" + d[k + 1..]
  {
  }

  /** Before the first underscore of digit groups is a group of digits. */
  lemma SplitHead(d: string, k: nat)
    requires DigitGroups(d) && k < |d| && d[k] == '_' && '_' !in d[..k]
    ensures d[..k] != [] && forall i :: 0 <= i < |d[..k]| ==> IsBinaryDigit(d[..k][i])
  {
    forall i | 0 <= i < k
      ensures IsBinaryDigit(d[..k][i])
    {
      assert d[..k][i] == d[i];
    }
  }

  /** After an underscore of digit groups come digit groups. */
  lemma SplitTail(d: string, k: nat)
    requires DigitGroups(d) && k < |d| && d[k] == '_'
    ensures DigitGroups(d[k + 1..])
  {
    var rest := d[k + 1..];
    assert k + 1 < |d| && !DoubleUnderscore(d, k);
    assert forall i :: 0 <= i < |rest| ==> rest[i] == d[k + 1 + i];
    forall i | 0 <= i < |rest| - 1
      ensures !DoubleUnderscore(rest, i)
    {
      assert !DoubleUnderscore(d, k + 1 + i);
    }
  }

  lemma JoinCons(g: string, more: seq<string>)
    requires |more| >= 1
    ensures JoinGroups([g] + more) == g + "_" + JoinGroups(more)
  {
    assert ([g] + more)[1..] == more;
  }

  lemma ConcatCons(g: string, more: seq<string>)
    ensures ConcatGroups([g] + more) == g + ConcatGroups(more)
  {
    assert ([g] + more)[1..] == more;
  }

  lemma GroupsCons(g: string, more: seq<string>)
    requires g != [] && forall i :: 0 <= i < |g| ==> IsBinaryDigit(g[i])
    requires BinaryGroups(more)
    ensures BinaryGroups([g] + more)
  {
    assert forall k :: 1 <= k <= |more| ==> ([g] + more)[k] == more[k - 1];
  }

  /** Removing the underscores after a group of digits keeps the group and drops the underscore. */
  lemma RemoveAfterGroup(g: string, rest: string)
    requires forall i :: 0 <= i < |g| ==> IsBinaryDigit(g[i])
    ensures RemoveUnderscores(g + "_" + rest) == g + RemoveUnderscores(rest)
  {
    var tail := "_" + rest;
    calc {
      RemoveUnderscores(g + "_" + rest);
      { assert g + "_" + rest == g + tail; }
      RemoveUnderscores(g + tail);
      { RemoveAppend(g, tail); NoUnderscores(g); }
      g + RemoveUnderscores(tail);
      { UnderscoreDropped(rest); }
      g + RemoveUnderscores(rest);
    }
  }

  lemma UnderscoreDropped(rest: string)
    ensures RemoveUnderscores("_" + rest) == RemoveUnderscores(rest)
  {
    assert ("_" + rest)[1..] == rest;
  }

  /** The position of the first underscore of d. */
  function UnderscoreAt(d: string): (k: nat)
    requires '_' in d
    ensures k < |d| && d[k] == '_' && '_' !in d[..k]
  {
    if d[0] == '_' then 0
    else
      var k := UnderscoreAt(d[1..]);
      assert d[..k + 1] == [d[0]] + d[1..][..k];
      k + 1
  }

  /** A sign and a prefix before digit groups: int() reads past both to the groups. */
  lemma SignedCore(sign: string, prefix: string, j: string)
    requires IsSign(sign) && IsPrefix(prefix)
    requires j != [] && IsBinaryDigit(j[0]) && IsBinaryDigit(j[|j| - 1])
    requires |j| >= 2 ==> IsBinaryDigit(j[1]) || j[1] == '_'
    ensures var core := sign + prefix + j;
      && core != [] && !IsWhitespace(core[0]) && !IsWhitespace(core[|core| - 1])
      && Digits(core) == j && (core[0] == '-' <==> sign == "-")
  {
    var core := sign + prefix + j;
    CoreStart(sign, prefix, j);
    assert core[|core| - 1] == j[|j| - 1];
    assert core[|sign| + |prefix|..] == j;
  }

  /** int() reads exactly the sign and the prefix before digit groups. */
  lemma CoreStart(sign: string, prefix: string, j: string)
    requires IsSign(sign) && IsPrefix(prefix)
    requires j != [] && IsBinaryDigit(j[0])
    requires |j| >= 2 ==> IsBinaryDigit(j[1]) || j[1] == '_'
    ensures var core := sign + prefix + j;
      && DigitsStart(core) == |sign| + |prefix| && !IsWhitespace(core[0])
      && (core[0] == '-' <==> sign == "-")
  {
    var core := sign + prefix + j;
    var k := |sign| + |prefix|;
    assert forall i :: 0 <= i < |prefix| ==> core[|sign| + i] == prefix[i];
    assert core[k] == j[0];
    assert |j| >= 2 ==> core[k + 1] == j[1];
    assert sign != [] ==> core[0] == sign[0];
    assert SignLength(core) == |sign|;
  }

  /** Joined groups form digit groups, start and end with a digit, and lose exactly their underscores. */
  lemma {:induction false} JoinedGroups(groups: seq<string>)
    requires BinaryGroups(groups)
    ensures var j := JoinGroups(groups);
      && DigitGroups(j) && IsBinaryDigit(j[0]) && IsBinaryDigit(j[|j| - 1])
      && (|j| >= 2 ==> IsBinaryDigit(j[1]) || j[1] == '_')
      && RemoveUnderscores(j) == ConcatGroups(groups)
    decreases |groups|
  {
    var g := groups[0];
    if |groups| == 1 {
      NoUnderscores(g);
      PlainGroups(g);
      ConcatCons(g, []);
      assert groups == [g] + [];
    } else {
      var rest := groups[1..];
      assert groups == [g] + rest;
      assert BinaryGroups(rest) by {
        assert forall k :: 0 <= k < |rest| ==> rest[k] == groups[k + 1];
      }
      JoinedGroups(rest);
      var jr := JoinGroups(rest);
      JoinedDigits(g, jr);
      RemoveAfterGroup(g, jr);
      ConcatCons(g, rest);
    }
  }

  /** A group, an underscore and digit groups form digit groups. */
  lemma JoinedDigits(g: string, jr: string)
    requires g != [] && forall i :: 0 <= i < |g| ==> IsBinaryDigit(g[i])
    requires DigitGroups(jr)
    ensures var j := g + "_" + jr;
      DigitGroups(j) && IsBinaryDigit(j[0]) && IsBinaryDigit(j[|j| - 1]) && (IsBinaryDigit(j[1]) || j[1] == '_')
  {
    var j := g + "_" + jr;
    assert forall i :: 0 <= i < |j| ==>
      j[i] == if i < |g| then g[i] else if i == |g| then '_' else jr[i - |g| - 1];
    assert j[|j| - 1] == jr[|jr| - 1];
    assert j[0] == g[0];
    forall i | 0 <= i < |j| - 1
      ensures !DoubleUnderscore(j, i)
    {
      if i > |g| {
        assert !DoubleUnderscore(jr, i - |g| - 1);
      }
    }
  }

  lemma {:induction false} RemoveAppend(a: string, b: string)
    ensures RemoveUnderscores(a + b) == RemoveUnderscores(a) + RemoveUnderscores(b)
    decreases |a|
  {
    if a == [] {
      assert a + b == b;
    } else {
      var head, x, y := if a[0] == '_' then [] else [a[0]], RemoveUnderscores(a[1..]), RemoveUnderscores(b);
      RemoveFront(a, b);
      RemoveAppend(a[1..], b);
      Associative(head, x, y);
    }
  }

  /** The first character of a + b is that of a, and the rest is the rest of a followed by b. */
  lemma RemoveFront(a: string, b: string)
    requires a != []
    ensures RemoveUnderscores(a + b) == (if a[0] == '_' then [] else [a[0]]) + RemoveUnderscores(a[1..] + b)
  {
    assert (a + b)[0] == a[0] && (a + b)[1..] == a[1..] + b;
  }
}
