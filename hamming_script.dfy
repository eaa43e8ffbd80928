/**
 * The extended Hamming(8,4) code of the first assignment: the generator and
 * check matrices, encoding, the syndrome, and the script's classification of
 * a received word with its correction loop, lifted out of the script and
 * parameterised by the check matrix it uses.
 */
module HammingScript {
  import opened Wrappers
  import opened Bits
  import opened Python
  import opened Gf2

  type Vector = seq<Bit>
  type Matrix = seq<seq<Bit>>

  // ---------------------------------------------------------------------------
  // Transposition

  /** The length of the shortest row, where zip(*matrix) stops; 0 for no rows. */
  function Width(m: Matrix): (w: nat)
    ensures forall i :: 0 <= i < |m| ==> w <= |m[i]|
    ensures m != [] ==> exists i :: 0 <= i < |m| && w == |m[i]|
    ensures m == [] ==> w == 0
  {
    if m == [] then 0
    else if |m| == 1 then |m[0]|
    else
      var rest := Width(m[1..]);
      assert forall i :: 1 <= i < |m| ==> m[1..][i - 1] == m[i];
      Min(|m[0]|, rest)
  }

  /** tuple(zip(*matrix)): entry (i, j) of the matrix is entry (j, i) of the result. */
  function Transpose(m: Matrix): (t: Matrix)
    ensures |t| == Width(m)
    ensures forall j :: 0 <= j < |t| ==> |t[j]| == |m|
    ensures forall j, i :: 0 <= j < |t| && 0 <= i < |m| ==> t[j][i] == m[i][j]
  {
    seq(Width(m), j requires 0 <= j < Width(m) => seq(|m|, i requires 0 <= i < |m| => m[i][j]))
  }

  /** No rows, or rows of one positive length: the matrices transposition loses nothing of. */
  predicate Rectangular(m: Matrix)
  {
    m != [] ==> |m[0]| >= 1 && Rows(m, |m[0]|)
  }

  lemma WidthOfRows(m: Matrix, n: nat)
    requires m != [] && Rows(m, n)
    ensures Width(m) == n
  {
  }

  /** Transposing twice gives back a rectangular matrix. */
  lemma TransposeInvolutive(m: Matrix)
    requires Rectangular(m)
    ensures Transpose(Transpose(m)) == m
  {
    if m != [] {
      var t := Transpose(m);
      WidthOfRows(m, |m[0]|);
      WidthOfRows(t, |m|);
      var tt := Transpose(t);
      assert |tt| == |m|;
      forall i | 0 <= i < |m|
        ensures tt[i] == m[i]
      {
        assert |tt[i]| == |m[i]|;
      }
    }
  }

  // ---------------------------------------------------------------------------
  // The matrices

  const GNonSys: Matrix := [
    [1, 1, 1, 0, 0, 0, 0, 1],
    [1, 0, 0, 1, 1, 0, 0, 1],
    [0, 1, 0, 1, 0, 1, 0, 1],
    [1, 1, 0, 1, 0, 0, 1, 0]]

  const HNonSys: Matrix := [
    [1, 0, 1, 0, 1, 0, 1, 0],
    [0, 1, 1, 0, 0, 1, 1, 0],
    [0, 0, 0, 1, 1, 1, 1, 0],
    [1, 1, 1, 1, 1, 1, 1, 1]]

  const GSys: Matrix := [
    [1, 0, 0, 0, 0, 1, 1, 1],
    [0, 1, 0, 0, 1, 0, 1, 1],
    [0, 0, 1, 0, 1, 1, 0, 1],
    [0, 0, 0, 1, 1, 1, 1, 0]]

  const HSys: Matrix := [
    [0, 1, 1, 1, 1, 0, 0, 0],
    [1, 0, 1, 1, 0, 1, 0, 0],
    [1, 1, 0, 1, 0, 0, 1, 0],
    [1, 1, 1, 0, 0, 0, 0, 1]]

  // ---------------------------------------------------------------------------
  // Encoding and the syndrome

  /** encode: position j of the code word is the parity of a's products with column j of G. */
  function Encode(a: Vector, g: Matrix): (c: Vector)
    ensures |c| == Width(g)
  {
    var cols := Transpose(g);
    seq(|cols|, j requires 0 <= j < |cols| => Dot(a, cols[j]) % 2)
  }

  /** get_syndrome: position i is the parity of x's products with row i of H. */
  function GetSyndrome(x: Vector, h: Matrix): (s: Vector)
    ensures |s| == |h|
  {
    seq(|h|, i requires 0 <= i < |h| => Dot(x, h[i]) % 2)
  }

  /** The integer combination of the rows of g that a selects. */
  function Combo(a: Vector, g: Matrix, n: nat): (w: seq<int>)
    requires |a| == |g| && Rows(g, n)
    ensures |w| == n
  {
    ComboTo(a, g, n, |a|)
  }

  /** Every entry of v is 0. */
  predicate AllZero(v: seq<int>)
  {
    forall k :: 0 <= k < |v| ==> v[k] == 0
  }

  /** A code word is the sum modulo 2 of the rows of G that the message selects. */
  lemma EncodeCombinesRows(a: Vector, g: Matrix, n: nat)
    requires |a| == |g| >= 1 && Rows(g, n)
    ensures |Encode(a, g)| == n
    ensures forall j :: 0 <= j < n ==> Encode(a, g)[j] == Combo(a, g, n)[j] % 2
  {
    WidthOfRows(g, n);
    forall j | 0 <= j < n
      ensures Encode(a, g)[j] == Combo(a, g, n)[j] % 2
    {
      assert Transpose(g)[j] == Column(g, j);
      ComboColumn(a, g, n, j, |a|);
    }
  }

  /** Every code word of G has a zero syndrome under a check matrix orthogonal to G. */
  lemma CodewordSyndromeZero(a: Vector, g: Matrix, h: Matrix, n: nat)
    requires |a| == |g| >= 1 && Rows(g, n) && Rows(h, n) && Orthogonal(g, h)
    ensures AllZero(GetSyndrome(Encode(a, g), h))
  {
    var s := GetSyndrome(Encode(a, g), h);
    forall k | 0 <= k < |h|
      ensures s[k] == 0
    {
      CodewordRowEven(a, g, h[k], n);
    }
  }

  /** A code word of G has an even sum of products with a row orthogonal to every row of G. */
  lemma CodewordRowEven(a: Vector, g: Matrix, hk: seq<Bit>, n: nat)
    requires |a| == |g| >= 1 && Rows(g, n) && |hk| == n
    requires forall i :: 0 <= i < |g| ==> Dot(g[i], hk) % 2 == 0
    ensures Dot(Encode(a, g), hk) % 2 == 0
  {
    var c := Encode(a, g);
    var combo := Combo(a, g, n);
    EncodeCombinesRows(a, g, n);
    assert forall j :: 0 <= j < n ==> c[j] % 2 == combo[j] % 2;
    DotToMod2(c, combo, hk, n);
    ComboOrthogonal(a, g, hk, n, |a|);
  }

  lemma NonSysRow0()
    ensures forall k :: 0 <= k < 4 ==> Dot(GNonSys[0], HNonSys[k]) % 2 == 0
  {
    assert DotTo(GNonSys[0], HNonSys[0], 8) % 2 == 0;
    assert DotTo(GNonSys[0], HNonSys[1], 8) % 2 == 0;
    assert DotTo(GNonSys[0], HNonSys[2], 8) % 2 == 0;
    assert DotTo(GNonSys[0], HNonSys[3], 8) % 2 == 0;
  }

  lemma NonSysRow1()
    ensures forall k :: 0 <= k < 4 ==> Dot(GNonSys[1], HNonSys[k]) % 2 == 0
  {
    assert DotTo(GNonSys[1], HNonSys[0], 8) % 2 == 0;
    assert DotTo(GNonSys[1], HNonSys[1], 8) % 2 == 0;
    assert DotTo(GNonSys[1], HNonSys[2], 8) % 2 == 0;
    assert DotTo(GNonSys[1], HNonSys[3], 8) % 2 == 0;
  }

  lemma NonSysRow2()
    ensures forall k :: 0 <= k < 4 ==> Dot(GNonSys[2], HNonSys[k]) % 2 == 0
  {
    assert DotTo(GNonSys[2], HNonSys[0], 8) % 2 == 0;
    assert DotTo(GNonSys[2], HNonSys[1], 8) % 2 == 0;
    assert DotTo(GNonSys[2], HNonSys[2], 8) % 2 == 0;
    assert DotTo(GNonSys[2], HNonSys[3], 8) % 2 == 0;
  }

  lemma NonSysRow3()
    ensures forall k :: 0 <= k < 4 ==> Dot(GNonSys[3], HNonSys[k]) % 2 == 0
  {
    assert DotTo(GNonSys[3], HNonSys[0], 8) % 2 == 0;
    assert DotTo(GNonSys[3], HNonSys[1], 8) % 2 == 0;
    assert DotTo(GNonSys[3], HNonSys[2], 8) % 2 == 0;
    assert DotTo(GNonSys[3], HNonSys[3], 8) % 2 == 0;
  }

  lemma SysRow0()
    ensures forall k :: 0 <= k < 4 ==> Dot(GSys[0], HSys[k]) % 2 == 0
  {
    assert DotTo(GSys[0], HSys[0], 8) % 2 == 0;
    assert DotTo(GSys[0], HSys[1], 8) % 2 == 0;
    assert DotTo(GSys[0], HSys[2], 8) % 2 == 0;
    assert DotTo(GSys[0], HSys[3], 8) % 2 == 0;
  }

  lemma SysRow1()
    ensures forall k :: 0 <= k < 4 ==> Dot(GSys[1], HSys[k]) % 2 == 0
  {
    assert DotTo(GSys[1], HSys[0], 8) % 2 == 0;
    assert DotTo(GSys[1], HSys[1], 8) % 2 == 0;
    assert DotTo(GSys[1], HSys[2], 8) % 2 == 0;
    assert DotTo(GSys[1], HSys[3], 8) % 2 == 0;
  }

  lemma SysRow2()
    ensures forall k :: 0 <= k < 4 ==> Dot(GSys[2], HSys[k]) % 2 == 0
  {
    assert DotTo(GSys[2], HSys[0], 8) % 2 == 0;
    assert DotTo(GSys[2], HSys[1], 8) % 2 == 0;
    assert DotTo(GSys[2], HSys[2], 8) % 2 == 0;
    assert DotTo(GSys[2], HSys[3], 8) % 2 == 0;
  }

  lemma SysRow3()
    ensures forall k :: 0 <= k < 4 ==> Dot(GSys[3], HSys[k]) % 2 == 0
  {
    assert DotTo(GSys[3], HSys[0], 8) % 2 == 0;
    assert DotTo(GSys[3], HSys[1], 8) % 2 == 0;
    assert DotTo(GSys[3], HSys[2], 8) % 2 == 0;
    assert DotTo(GSys[3], HSys[3], 8) % 2 == 0;
  }

  /** Both check matrices annihilate their generator matrices: H G^T = 0 over GF(2). */
  lemma CheckMatricesAnnihilate()
    ensures Orthogonal(GNonSys, HNonSys) && Orthogonal(GSys, HSys)
  {
    NonSysRow0(); NonSysRow1(); NonSysRow2(); NonSysRow3();
    SysRow0(); SysRow1(); SysRow2(); SysRow3();
  }

  /** Every message encodes under G_sys to a word beginning with the message itself. */
  lemma SystematicPrefix(a: Vector)
    requires |a| == 4
    ensures Encode(a, GSys)[..4] == a
  {
    WidthOfRows(GSys, 8);
    var c := Encode(a, GSys);
    forall j | 0 <= j < 4
      ensures c[j] == a[j]
    {
      SysIdentityColumn(j);
      IdentityColumnCopies(a, GSys, j);
    }
  }

  /** Where column j of g is the j-th unit vector, encoding copies a[j] to position j. */
  lemma IdentityColumnCopies(a: Vector, g: Matrix, j: nat)
    requires |a| == |g| && j < |a| && Rows(g, 8) && j < 8
    requires forall p :: 0 <= p < |g| ==> g[p][j] == if p == j then 1 else 0
    ensures j < |Encode(a, g)| && Encode(a, g)[j] == a[j]
  {
    WidthOfRows(g, 8);
    var col := Transpose(g)[j];
    assert |col| == |a| && Dot(a, col) == DotTo(a, col, |a|);
    DotToUnit(a, col, |a|, j);
  }

  /** The first four columns of G_sys form the identity. */
  lemma SysIdentityColumn(j: nat)
    requires j < 4
    ensures forall p :: 0 <= p < 4 ==> GSys[p][j] == if p == j then 1 else 0
  {
  }

  /** The sum of a vector's entries. */
  function Sum(v: seq<int>): int
  {
    if v == [] then 0 else Sum(v[..|v| - 1]) + v[|v| - 1]
  }

  lemma {:induction false} SumIsDotOnes(v: seq<int>, ones: seq<int>, n: nat)
    requires n <= |v| && n <= |ones|
    requires forall j :: 0 <= j < n ==> ones[j] == 1
    ensures DotTo(v, ones, n) == Sum(v[..n])
  {
    if n > 0 {
      SumIsDotOnes(v, ones, n - 1);
      assert v[..n][..n - 1] == v[..n - 1];
    }
  }

  /** Every code word of G_non_sys has an even number of ones, as the script's parity check expects. */
  lemma NonSysCodewordsEven(a: Vector)
    requires |a| == 4
    ensures Sum(Encode(a, GNonSys)) % 2 == 0
  {
    var c := Encode(a, GNonSys);
    NonSysCodeword(a);
    assert GetSyndrome(c, HNonSys)[3] == 0;
    assert Dot(c, HNonSys[3]) % 2 == 0;
    SumIsDotOnes(c, HNonSys[3], 8);
    assert c[..8] == c;
  }

  // ---------------------------------------------------------------------------
  // Classification and correction

  /** sum(2**i * bit for i, bit in enumerate(syndrome)): the bits read least significant first. */
  function SyndromeNumber(bits: seq<Bit>): nat
  {
    if bits == [] then 0 else bits[0] + 2 * SyndromeNumber(bits[1..])
  }

  /** The syndrome number is 0 exactly when every syndrome bit is 0. */
  lemma {:induction false} SyndromeNumberZero(bits: seq<Bit>)
    ensures SyndromeNumber(bits) == 0 <==> forall i :: 0 <= i < |bits| ==> bits[i] == 0
  {
    if bits != [] {
      SyndromeNumberZero(bits[1..]);
      assert forall i :: 1 <= i < |bits| ==> bits[1..][i - 1] == bits[i];
    }
  }

  lemma SyndromeNumber3(bits: seq<Bit>)
    requires |bits| == 3
    ensures SyndromeNumber(bits) == bits[0] as int + 2 * (bits[1] as int) + 4 * (bits[2] as int)
  {
    var tail := bits[1..][1..];
    assert tail == [bits[2]] && tail[1..] == [];
    assert SyndromeNumber(tail) == bits[2];
  }

  /** The syndrome number of *syndrome in *syndrome, overall_parity = get_syndrome(x, H). */
  function Number(x: Vector, h: Matrix): nat
    requires |h| >= 1
  {
    SyndromeNumber(GetSyndrome(x, h)[..|h| - 1])
  }

  /** overall_parity in *syndrome, overall_parity = get_syndrome(x, H): the last syndrome bit. */
  function Parity(x: Vector, h: Matrix): Bit
    requires |h| >= 1
  {
    GetSyndrome(x, h)[|h| - 1]
  }

  /** The tuple of lines 91-94: bit k flipped; an index outside the vector changes nothing. */
  function Flip(x: Vector, k: int): Vector
  {
    seq(|x|, i requires 0 <= i < |x| => if i == k then 1 - x[i] else x[i])
  }

  /** Flipping changes bit k alone when k is a position of x, and nothing otherwise. */
  lemma FlipUpdates(x: Vector, k: int)
    ensures 0 <= k < |x| ==> Flip(x, k) == x[k := 1 - x[k]]
    ensures !(0 <= k < |x|) ==> Flip(x, k) == x
  {
  }

  /** The message the script prints for a word; Unresolved is the loop ending with none. */
  datatype Verdict = NoError | ParityBitError | Corrected | MultipleErrors | Unresolved

  /** A verdict together with the vector the script holds when it reaches it. */
  datatype Diagnosis = Diagnosis(verdict: Verdict, vector: Vector)

  /**
   * The while loop of lines 89-104, from a vector x; None when more than
   * fuel flips would be needed.
   */
  function Correct(x: Vector, h: Matrix, fuel: nat): (r: Option<Diagnosis>)
    requires |h| >= 1
    decreases fuel
  {
    if !(Number(x, h) >= 1 && Parity(x, h) == 1) then Some(Diagnosis(Unresolved, x))
    else if fuel == 0 then None
    else
      var y := Flip(x, Number(x, h) - 1);
      if Number(y, h) == 0 && Parity(y, h) == 0 then Some(Diagnosis(Corrected, y))
      else if Number(y, h) >= 1 && Parity(y, h) == 0 then Some(Diagnosis(MultipleErrors, y))
      else Correct(y, h, fuel - 1)
  }

  /**
   * The classification of lines 79-106 for one received vector: ValueError
   * when H has no rows to unpack, otherwise the verdict.
   */
  function Diagnose(x: Vector, h: Matrix, fuel: nat): (r: Result<Option<Diagnosis>, PyError>)
  {
    if |h| == 0 then Failure(ValueError)
    else
      var number, parity := Number(x, h), Parity(x, h);
      if number == 0 && parity == 0 then Success(Some(Diagnosis(NoError, x)))
      else if number == 0 && parity == 1 then Success(Some(Diagnosis(ParityBitError, x)))
      else if number >= 1 && parity == 1 then Success(Correct(x, h, fuel))
      else Success(Some(Diagnosis(MultipleErrors, x)))
  }

  /** Lines 79-80 and 97-98: unpack the syndrome into its number and the overall parity bit. */
  method ReadSyndrome(vector: Vector, h: Matrix) returns (syndromeNumber: nat, overallParity: Bit)
    requires |h| >= 1
    ensures syndromeNumber == Number(vector, h) && overallParity == Parity(vector, h)
  {
    var s := GetSyndrome(vector, h);
    var syndrome := s[..|s| - 1];
    overallParity := s[|s| - 1];
    syndromeNumber := SyndromeNumber(syndrome);
  }

  /** One pass of the loop: flip the bit the syndrome names, then stop or go on. */
  lemma CorrectStep(x: Vector, y: Vector, h: Matrix, rest: nat, number: nat, parity: Bit)
    requires |h| >= 1 && Number(x, h) >= 1 && Parity(x, h) == 1
    requires y == Flip(x, Number(x, h) - 1) && number == Number(y, h) && parity == Parity(y, h)
    ensures number == 0 && parity == 0 ==> Correct(x, h, rest + 1) == Some(Diagnosis(Corrected, y))
    ensures number >= 1 && parity == 0 ==> Correct(x, h, rest + 1) == Some(Diagnosis(MultipleErrors, y))
    ensures parity == 1 ==> Correct(x, h, rest + 1) == Correct(y, h, rest)
  {
  }

  /** The loop ends at once on a vector it does not try to correct, and gives up when the fuel is spent. */
  lemma CorrectEnds(x: Vector, h: Matrix, fuel: nat)
    requires |h| >= 1
    ensures !(Number(x, h) >= 1 && Parity(x, h) == 1) ==> Correct(x, h, fuel) == Some(Diagnosis(Unresolved, x))
    ensures Number(x, h) >= 1 && Parity(x, h) == 1 && fuel == 0 ==> Correct(x, h, fuel) == None
  {
  }

  /** The script's check of one received vector, with at most fuel correction steps. */
  method CheckWord(received: Vector, h: Matrix, fuel: nat) returns (r: Result<Option<Diagnosis>, PyError>)
    ensures r == Diagnose(received, h, fuel)
  {
    if |h| == 0 {
      return Failure(ValueError);
    }
    var syndromeNumber, overallParity := ReadSyndrome(received, h);
    if syndromeNumber == 0 && overallParity == 0 {
      r := Success(Some(Diagnosis(NoError, received)));
    } else if syndromeNumber == 0 && overallParity == 1 {
      r := Success(Some(Diagnosis(ParityBitError, received)));
    } else if syndromeNumber >= 1 && overallParity == 1 {
      var outcome := CorrectionLoop(received, h, fuel, syndromeNumber, overallParity);
      r := Success(outcome);
    } else {
      r := Success(Some(Diagnosis(MultipleErrors, received)));
    }
  }

  /** The while loop of lines 89-104, entered with the status of vector. */
  method CorrectionLoop(received: Vector, h: Matrix, fuel: nat, number: nat, parity: Bit)
    returns (r: Option<Diagnosis>)
    requires |h| >= 1 && number == Number(received, h) && parity == Parity(received, h)
    ensures r == Correct(received, h, fuel)
  {
    var vector, syndromeNumber, overallParity := received, number, parity;
    var budget := fuel;
    while syndromeNumber >= 1 && overallParity == 1
      invariant syndromeNumber == Number(vector, h) && overallParity == Parity(vector, h)
      invariant Correct(vector, h, budget) == Correct(received, h, fuel)
      decreases budget
    {
      if budget == 0 {
        CorrectEnds(vector, h, budget);
        return None;
      }
      ghost var previous := vector;
      vector, budget := Flip(vector, syndromeNumber - 1), budget - 1;
      syndromeNumber, overallParity := ReadSyndrome(vector, h);
      CorrectStep(previous, vector, h, budget, syndromeNumber, overallParity);
      if syndromeNumber == 0 && overallParity == 0 {
        return Some(Diagnosis(Corrected, vector));
      } else if syndromeNumber >= 1 && overallParity == 0 {
        return Some(Diagnosis(MultipleErrors, vector));
      }
    }
    CorrectEnds(vector, h, budget);
    return Some(Diagnosis(Unresolved, vector));
  }

  // ---------------------------------------------------------------------------
  // What the classification achieves

  /** Flipping bit i adds column i of H to the syndrome, modulo 2. */
  lemma FlipSyndrome(x: Vector, h: Matrix, i: nat)
    requires i < |x| && Rows(h, |x|)
    ensures forall k :: 0 <= k < |h| ==>
      GetSyndrome(Flip(x, i), h)[k] == (GetSyndrome(x, h)[k] as int + h[k][i]) % 2
  {
    forall k | 0 <= k < |h|
      ensures GetSyndrome(Flip(x, i), h)[k] == (GetSyndrome(x, h)[k] as int + h[k][i]) % 2
    {
      FlipSyndromeBit(x, h, i, k);
    }
  }

  lemma FlipSyndromeBit(x: Vector, h: Matrix, i: nat, k: nat)
    requires i < |x| && Rows(h, |x|) && k < |h|
    ensures GetSyndrome(Flip(x, i), h)[k] == (GetSyndrome(x, h)[k] as int + h[k][i]) % 2
  {
    var n := |x|;
    FlipUpdates(x, i);
    DotToUpdate(x, h[k], n, i, 1 - x[i]);
    var d, xi, hki := DotTo(x, h[k], n), x[i] as int, h[k][i] as int;
    assert (1 - xi - xi) * hki == hki - 2 * (xi * hki);
    assert (d + hki - 2 * (xi * hki)) % 2 == (d % 2 + hki) % 2;
  }

  /** A vector with a zero syndrome has syndrome number 0 and overall parity 0. */
  lemma ZeroStatus(c: Vector, h: Matrix)
    requires |h| >= 1 && AllZero(GetSyndrome(c, h))
    ensures Number(c, h) == 0 && Parity(c, h) == 0
  {
    SyndromeNumberZero(GetSyndrome(c, h)[..|h| - 1]);
  }

  /** Under a four-row check matrix, a single flipped bit of a word with zero syndrome shows column i. */
  lemma SingleErrorStatus(c: Vector, h: Matrix, i: nat)
    requires |h| == 4 && Rows(h, |c|) && i < |c| && AllZero(GetSyndrome(c, h))
    ensures Number(Flip(c, i), h) == h[0][i] as int + 2 * (h[1][i] as int) + 4 * (h[2][i] as int)
    ensures Parity(Flip(c, i), h) == h[3][i]
  {
    FlipSyndrome(c, h, i);
    var s := GetSyndrome(Flip(c, i), h);
    assert s[..3] == [h[0][i], h[1][i], h[2][i]];
    SyndromeNumber3(s[..3]);
  }

  /**
   * Under a four-row check matrix, two flipped bits of a word with zero
   * syndrome give overall parity h[3][i] + h[3][j] (mod 2), and syndrome
   * number 0 exactly when columns i and j agree in the first three rows.
   */
  lemma DoubleErrorStatus(c: Vector, h: Matrix, i: nat, j: nat)
    requires |h| == 4 && Rows(h, |c|) && i < |c| && j < |c| && AllZero(GetSyndrome(c, h))
    ensures Parity(Flip(Flip(c, i), j), h) == (h[3][i] as int + h[3][j]) % 2
    ensures Number(Flip(Flip(c, i), j), h) == 0 <==> forall k :: 0 <= k < 3 ==> h[k][i] == h[k][j]
  {
    var s := GetSyndrome(Flip(Flip(c, i), j), h);
    DoubleErrorSyndrome(c, h, i, j);
    var front := s[..3];
    SyndromeNumberZero(front);
    assert (forall k :: 0 <= k < 3 ==> front[k] == 0) <==> (forall k :: 0 <= k < 3 ==> h[k][i] == h[k][j]);
  }

  /** Two flipped bits of a word with zero syndrome show the sum of their columns. */
  lemma DoubleErrorSyndrome(c: Vector, h: Matrix, i: nat, j: nat)
    requires Rows(h, |c|) && i < |c| && j < |c| && AllZero(GetSyndrome(c, h))
    ensures forall k :: 0 <= k < |h| ==> GetSyndrome(Flip(Flip(c, i), j), h)[k] == (h[k][i] as int + h[k][j]) % 2
  {
    forall k | 0 <= k < |h|
      ensures GetSyndrome(Flip(Flip(c, i), j), h)[k] == (h[k][i] as int + h[k][j]) % 2
    {
      var once := Flip(c, i);
      assert |once| == |c|;
      FlipSyndromeBit(c, h, i, k);
      FlipSyndromeBit(once, h, j, k);
      assert GetSyndrome(c, h)[k] == 0;
    }
  }

  /** Every message encodes under G_non_sys to a word of length 8 with zero syndrome. */
  lemma NonSysCodeword(a: Vector)
    requires |a| == 4
    ensures |Encode(a, GNonSys)| == 8 && AllZero(GetSyndrome(Encode(a, GNonSys), HNonSys))
  {
    WidthOfRows(GNonSys, 8);
    CheckMatricesAnnihilate();
    CodewordSyndromeZero(a, GNonSys, HNonSys, 8);
  }

  /** Every message encodes under G_sys to a word of length 8 with zero syndrome. */
  lemma SysCodeword(a: Vector)
    requires |a| == 4
    ensures |Encode(a, GSys)| == 8 && AllZero(GetSyndrome(Encode(a, GSys), HSys))
  {
    WidthOfRows(GSys, 8);
    CheckMatricesAnnihilate();
    CodewordSyndromeZero(a, GSys, HSys, 8);
  }

  /** Each column i of H_non_sys spells i + 1 in its first three bits (0 for the last column), over a 1. */
  lemma NonSysColumn(i: nat)
    requires i < 8
    ensures HNonSys[0][i] as int + 2 * (HNonSys[1][i] as int) + 4 * (HNonSys[2][i] as int) == if i < 7 then i + 1 else 0
    ensures HNonSys[3][i] == 1
  {
  }

  /**
   * With H_non_sys the loop of lines 89-104 never takes a second pass: from any
   * eight-bit vector it enters, flipping the bit the syndrome number names
   * clears the whole syndrome, so the script reports the flipped vector as
   * corrected.
   */
  lemma NonSysOnePass(x: Vector, fuel: nat)
    requires |x| == 8 && fuel >= 1 && Number(x, HNonSys) >= 1 && Parity(x, HNonSys) == 1
    ensures Correct(x, HNonSys, fuel) == Some(Diagnosis(Corrected, Flip(x, Number(x, HNonSys) - 1)))
  {
    var i := Number(x, HNonSys) - 1;
    NonSysSyndromeIsColumn(x);
    SyndromeCleared(x, HNonSys, i);
    ZeroStatus(Flip(x, i), HNonSys);
  }

  /**
   * So with H_non_sys the script always reaches a verdict for an eight-bit
   * vector, and one pass of the loop is as good as any number of them.
   */
  lemma NonSysFuelIrrelevant(x: Vector, fuel: nat)
    requires |x| == 8 && fuel >= 1
    ensures Diagnose(x, HNonSys, fuel) == Diagnose(x, HNonSys, 1)
    ensures Diagnose(x, HNonSys, fuel).value.Some?
  {
    if Number(x, HNonSys) >= 1 && Parity(x, HNonSys) == 1 {
      NonSysOnePass(x, fuel);
      NonSysOnePass(x, 1);
    }
  }

  /** Under H_non_sys, a syndrome with a nonzero number and odd parity is column number - 1 of the matrix. */
  lemma NonSysSyndromeIsColumn(x: Vector)
    requires |x| == 8 && Number(x, HNonSys) >= 1 && Parity(x, HNonSys) == 1
    ensures Number(x, HNonSys) <= 7
    ensures forall k :: 0 <= k < 4 ==> GetSyndrome(x, HNonSys)[k] == HNonSys[k][Number(x, HNonSys) - 1]
  {
    var s := GetSyndrome(x, HNonSys);
    SyndromeNumber3(s[..3]);
    var i := Number(x, HNonSys) - 1;
    assert i == s[0] as int + 2 * (s[1] as int) + 4 * (s[2] as int) - 1 < 7;
    NonSysColumn(i);
    SameBits(s[0], s[1], s[2], HNonSys[0][i], HNonSys[1][i], HNonSys[2][i]);
  }

  /** Flipping a bit whose column of H equals the syndrome leaves a zero syndrome. */
  lemma SyndromeCleared(x: Vector, h: Matrix, i: nat)
    requires i < |x| && Rows(h, |x|)
    requires forall k :: 0 <= k < |h| ==> GetSyndrome(x, h)[k] == h[k][i]
    ensures AllZero(GetSyndrome(Flip(x, i), h))
  {
    FlipSyndrome(x, h, i);
  }

  /** Three bits are determined by the number they spell, least significant first. */
  lemma SameBits(a0: Bit, a1: Bit, a2: Bit, b0: Bit, b1: Bit, b2: Bit)
    requires a0 as int + 2 * (a1 as int) + 4 * (a2 as int) == b0 as int + 2 * (b1 as int) + 4 * (b2 as int)
    ensures a0 == b0 && a1 == b1 && a2 == b2
  {
  }

  /** Columns 3 to 6 of H_sys have a nonzero syndrome number over a 0. */
  lemma SysColumn(i: nat)
    requires 3 <= i <= 6
    ensures HSys[0][i] as int + 2 * (HSys[1][i] as int) + 4 * (HSys[2][i] as int) >= 1
    ensures HSys[3][i] == 0
  {
  }

  /**
   * With H_sys the loop of lines 89-104 also always ends for an eight-bit
   * vector, after at most three passes, and it ends with "Corrected!" or
   * "Multiple errors": every fuel of at least 3 gives the same verdict.
   */
  lemma SysFuelIrrelevant(x: Vector, fuel: nat)
    requires |x| == 8 && fuel >= 3
    ensures Diagnose(x, HSys, fuel) == Diagnose(x, HSys, 3)
    ensures Diagnose(x, HSys, fuel).value.Some?
  {
    if Number(x, HSys) >= 1 && Parity(x, HSys) == 1 {
      SysSettles(x, fuel, 3);
    }
  }

  /**
   * Under H_sys the loop, entered from an eight-bit vector, takes at most
   * SysPasses(n) passes for syndrome number n, and ends corrected or with
   * multiple errors; fuel beyond that changes nothing.
   */
  lemma {:induction false} SysSettles(x: Vector, fuel: nat, fuel': nat)
    requires |x| == 8 && Number(x, HSys) >= 1 && Parity(x, HSys) == 1
    requires fuel >= SysPasses(Number(x, HSys)) && fuel' >= SysPasses(Number(x, HSys))
    ensures Correct(x, HSys, fuel) == Correct(x, HSys, fuel')
    ensures Correct(x, HSys, fuel).Some?
    ensures Correct(x, HSys, fuel).value.verdict in {Corrected, MultipleErrors}
    decreases SysPasses(Number(x, HSys))
  {
    var n := Number(x, HSys);
    SysColumnsOfHSys();
    SysStep(x, HSys);
    var y := Flip(x, n - 1);
    if Number(y, HSys) >= 1 && Parity(y, HSys) == 1 {
      SysSettles(y, fuel - 1, fuel' - 1);
    }
  }

  /** The passes the H_sys loop takes from an entered vector with syndrome number n. */
  function SysPasses(n: nat): (passes: nat)
    ensures 1 <= passes <= 3
  {
    if n == 5 || n == 6 then 3 else if n == 4 || n == 7 then 2 else 1
  }

  /**
   * One pass of the loop under H_sys (or any matrix with its columns): the
   * flip of bit n - 1 adds column n - 1 to the syndrome, which takes numbers
   * 1 and 2 to 7 with even parity, 3 to a zero syndrome, 4 and 7 to 3, and 5
   * and 6 to 4, each with odd parity.
   */
  lemma SysStep(x: Vector, h: Matrix)
    requires |x| == 8 && SysColumns(h) && Number(x, h) >= 1 && Parity(x, h) == 1
    ensures |Flip(x, Number(x, h) - 1)| == 8
    ensures var y := Flip(x, Number(x, h) - 1);
      Number(x, h) <= 2 ==> Number(y, h) == 7 && Parity(y, h) == 0
    ensures var y := Flip(x, Number(x, h) - 1);
      Number(x, h) == 3 ==> Number(y, h) == 0 && Parity(y, h) == 0
    ensures var y := Flip(x, Number(x, h) - 1);
      Number(x, h) >= 4 ==> Number(y, h) >= 1 && Parity(y, h) == 1 && SysPasses(Number(y, h)) == SysPasses(Number(x, h)) - 1
  {
    var n := Number(x, h);
    var y := Flip(x, n - 1);
    var s, t := GetSyndrome(x, h), GetSyndrome(y, h);
    Status4(x, h);
    Status4(y, h);
    var i := n - 1;
    FlipSyndromeBit(x, h, i, 0);
    FlipSyndromeBit(x, h, i, 1);
    FlipSyndromeBit(x, h, i, 2);
    FlipSyndromeBit(x, h, i, 3);
    SysTransition(n, s[0], s[1], s[2], h[0][i], h[1][i], h[2][i], h[3][i], t[0], t[1], t[2], t[3]);
  }

  /** Column i of H_sys, for i from 0 to 6, as (row 0, row 1, row 2, row 3). */
  function SysColumnBits(i: nat): (Bit, Bit, Bit, Bit)
  {
    if i == 0 then (0, 1, 1, 1) else if i == 1 then (1, 0, 1, 1) else if i == 2 then (1, 1, 0, 1)
    else if i == 3 then (1, 1, 1, 0) else if i == 4 then (1, 0, 0, 0) else if i == 5 then (0, 1, 0, 0)
    else (0, 0, 1, 0)
  }

  /** A four-row matrix over eight-bit vectors whose columns 0 to 6 are those of H_sys. */
  predicate SysColumns(h: Matrix)
  {
    |h| == 4 && Rows(h, 8) && forall i :: 0 <= i < 7 ==> (h[0][i], h[1][i], h[2][i], h[3][i]) == SysColumnBits(i)
  }

  /** H_sys has its own columns. */
  lemma SysColumnsOfHSys()
    ensures SysColumns(HSys)
  {
    forall i | 0 <= i < 7
      ensures (HSys[0][i], HSys[1][i], HSys[2][i], HSys[3][i]) == SysColumnBits(i)
    {
      SysColumnTable(i);
    }
  }

  /** Column i of H_sys is SysColumnBits(i), for i below 7. */
  lemma SysColumnTable(i: nat)
    requires i < 7
    ensures (HSys[0][i], HSys[1][i], HSys[2][i], HSys[3][i]) == SysColumnBits(i)
  {
  }

  /** Under a four-row check matrix, the number spells the first three syndrome bits and the parity is the fourth. */
  lemma Status4(x: Vector, h: Matrix)
    requires |h| == 4
    ensures var s := GetSyndrome(x, h);
      Number(x, h) == s[0] as int + 2 * (s[1] as int) + 4 * (s[2] as int) && Parity(x, h) == s[3]
  {
    var s := GetSyndrome(x, h);
    SyndromeNumber3(s[..3]);
  }

  /**
   * The syndrome arithmetic behind SysStep: a syndrome with number n >= 1 and
   * odd parity, plus column n - 1 of H_sys (c0, c1, c2, c3) mod 2, is the
   * syndrome t.
   */
  lemma SysTransition(n: nat, s0: Bit, s1: Bit, s2: Bit, c0: Bit, c1: Bit, c2: Bit, c3: Bit, t0: Bit, t1: Bit, t2: Bit, t3: Bit)
    requires n == s0 as int + 2 * (s1 as int) + 4 * (s2 as int) >= 1
    requires (c0, c1, c2, c3) == SysColumnBits(n - 1)
    requires t0 as int == (s0 as int + c0 as int) % 2 && t1 as int == (s1 as int + c1 as int) % 2
    requires t2 as int == (s2 as int + c2 as int) % 2 && t3 as int == (1 + c3 as int) % 2
    ensures var m := t0 as int + 2 * (t1 as int) + 4 * (t2 as int);
      (n <= 2 ==> m == 7 && t3 == 0) &&
      (n == 3 ==> m == 0 && t3 == 0) &&
      (n >= 4 ==> m >= 1 && t3 == 1 && SysPasses(m) == SysPasses(n) - 1)
  {
  }

  /** Every code word passes the check with its own check matrix, for either pair. */
  lemma CodewordsPass(a: Vector, fuel: nat)
    requires |a| == 4
    ensures Diagnose(Encode(a, GNonSys), HNonSys, fuel) == Success(Some(Diagnosis(NoError, Encode(a, GNonSys))))
    ensures Diagnose(Encode(a, GSys), HSys, fuel) == Success(Some(Diagnosis(NoError, Encode(a, GSys))))
  {
    NonSysCodeword(a);
    ZeroStatus(Encode(a, GNonSys), HNonSys);
    SysCodeword(a);
    ZeroStatus(Encode(a, GSys), HSys);
  }

  /**
   * With H_non_sys, a single flipped bit of a code word is put right: a data
   * or check bit in one correction step, the overall parity bit reported as such.
   */
  lemma SingleErrorCorrected(a: Vector, i: nat, fuel: nat)
    requires |a| == 4 && i < 8 && fuel >= 1
    ensures Diagnose(Flip(Encode(a, GNonSys), i), HNonSys, fuel) ==
      if i == 7 then Success(Some(Diagnosis(ParityBitError, Flip(Encode(a, GNonSys), i))))
      else Success(Some(Diagnosis(Corrected, Encode(a, GNonSys))))
  {
    var c := Encode(a, GNonSys);
    NonSysCodeword(a);
    SingleErrorStatus(c, HNonSys, i);
    NonSysColumn(i);
    if i < 7 {
      FlipUpdates(c, i);
      FlipUpdates(Flip(c, i), i);
      assert Flip(Flip(c, i), i) == c;
      ZeroStatus(c, HNonSys);
    }
  }

  /** With H_non_sys, two flipped bits of a code word are reported as multiple errors, unchanged. */
  lemma DoubleErrorDetected(a: Vector, i: nat, j: nat, fuel: nat)
    requires |a| == 4 && i < 8 && j < 8 && i != j
    ensures var v := Flip(Flip(Encode(a, GNonSys), i), j);
      Diagnose(v, HNonSys, fuel) == Success(Some(Diagnosis(MultipleErrors, v)))
  {
    var c := Encode(a, GNonSys);
    NonSysCodeword(a);
    DoubleErrorStatus(c, HNonSys, i, j);
    NonSysColumn(i);
    NonSysColumn(j);
  }

  /**
   * As written, the check section uses H_sys, whose columns do not spell
   * their positions: a single flipped bit at positions 3 to 6 of a G_sys code
   * word is reported as multiple errors.
   */
  lemma SystematicCheckMisreports(a: Vector, i: nat, fuel: nat)
    requires |a| == 4 && 3 <= i <= 6
    ensures var v := Flip(Encode(a, GSys), i);
      Diagnose(v, HSys, fuel) == Success(Some(Diagnosis(MultipleErrors, v)))
  {
    var c := Encode(a, GSys);
    SysCodeword(a);
    SingleErrorStatus(c, HSys, i);
    SysColumn(i);
  }

  // ---------------------------------------------------------------------------
  // The script's own received words

  /** The four received words that the check section classifies. */
  const Received: seq<Vector> := [
    [1, 1, 0, 0, 1, 1, 0, 1],
    [1, 0, 0, 1, 1, 0, 0, 1],
    [1, 1, 0, 1, 1, 0, 1, 1],
    [1, 1, 0, 1, 0, 1, 0, 1]]

  /** The sum of products of two eight-entry vectors, written out. */
  function DotEight(x: seq<int>, r: seq<int>): int
    requires |x| == 8 && |r| == 8
  {
    x[0] * r[0] + x[1] * r[1] + x[2] * r[2] + x[3] * r[3] + x[4] * r[4] + x[5] * r[5] + x[6] * r[6] + x[7] * r[7]
  }

  lemma DotEightUnfolds(x: seq<int>, r: seq<int>)
    requires |x| == 8 && |r| == 8
    ensures Dot(x, r) == DotEight(x, r)
  {
    assert Dot(x, r) == DotTo(x, r, 8);
    assert DotTo(x, r, 1) == x[0] * r[0];
    assert DotTo(x, r, 2) == DotTo(x, r, 1) + x[1] * r[1];
    assert DotTo(x, r, 3) == DotTo(x, r, 2) + x[2] * r[2];
    assert DotTo(x, r, 4) == DotTo(x, r, 3) + x[3] * r[3];
    assert DotTo(x, r, 5) == DotTo(x, r, 4) + x[4] * r[4];
    assert DotTo(x, r, 6) == DotTo(x, r, 5) + x[5] * r[5];
    assert DotTo(x, r, 7) == DotTo(x, r, 6) + x[6] * r[6];
  }

  /** The syndrome number and overall parity of a word, from its sums of products with the four rows of h. */
  lemma StatusOf(x: Vector, h: Matrix, s: seq<Bit>)
    requires |x| == 8 && |h| == 4 && Rows(h, 8) && |s| == 4
    requires DotEight(x, h[0]) % 2 == s[0] && DotEight(x, h[1]) % 2 == s[1]
    requires DotEight(x, h[2]) % 2 == s[2] && DotEight(x, h[3]) % 2 == s[3]
    ensures Number(x, h) == s[0] as int + 2 * (s[1] as int) + 4 * (s[2] as int) && Parity(x, h) == s[3]
  {
    var g := GetSyndrome(x, h);
    forall k | 0 <= k < 4
      ensures g[k] == s[k]
    {
      DotEightUnfolds(x, h[k]);
    }
    assert g == s;
    SyndromeNumber3(g[..3]);
  }

  /**
   * As written, with H_sys: word 1 shows an error in the parity bit, word 2
   * none, word 3 gets bit 0 flipped and is then reported as multiple errors,
   * and word 4 is "corrected" by three flips to the G_sys code word
   * 1110 0001.
   */
  lemma ReceivedAsWritten(fuel: nat)
    requires fuel >= 3
    ensures Diagnose(Received[0], HSys, fuel) == Success(Some(Diagnosis(ParityBitError, Received[0])))
    ensures Diagnose(Received[1], HSys, fuel) == Success(Some(Diagnosis(NoError, Received[1])))
    ensures Diagnose(Received[2], HSys, fuel) == Success(Some(Diagnosis(MultipleErrors, [0, 1, 0, 1, 1, 0, 1, 1])))
    ensures Diagnose(Received[3], HSys, fuel) == Success(Some(Diagnosis(Corrected, [1, 1, 1, 0, 0, 0, 0, 1])))
  {
    StatusSysWord1();
    StatusSysWord2();
    ThirdAsWritten(fuel);
    FourthAsWritten(fuel);
  }

  lemma ThirdAsWritten(fuel: nat)
    requires fuel >= 1
    ensures Diagnose(Received[2], HSys, fuel) == Success(Some(Diagnosis(MultipleErrors, [0, 1, 0, 1, 1, 0, 1, 1])))
  {
    var x, y := Received[2], [0, 1, 0, 1, 1, 0, 1, 1];
    StatusSysWord3();
    StatusSysWord3Flipped();
    assert Flip(x, 0) == y;
    CorrectStep(x, y, HSys, fuel - 1, 7, 0);
  }

  lemma FourthAsWritten(fuel: nat)
    requires fuel >= 3
    ensures Diagnose(Received[3], HSys, fuel) == Success(Some(Diagnosis(Corrected, [1, 1, 1, 0, 0, 0, 0, 1])))
  {
    var x0, x1, x2, x3 := Received[3], [1, 1, 0, 1, 0, 0, 0, 1], [1, 1, 0, 0, 0, 0, 0, 1], [1, 1, 1, 0, 0, 0, 0, 1];
    StatusSysWord4();
    StatusSysWord4Flipped1();
    StatusSysWord4Flipped2();
    StatusSysWord4Flipped3();
    assert Flip(x0, 5) == x1 && Flip(x1, 3) == x2 && Flip(x2, 2) == x3;
    CorrectStep(x2, x3, HSys, fuel - 3, 0, 0);
    CorrectStep(x1, x2, HSys, fuel - 2, 3, 1);
    CorrectStep(x0, x1, HSys, fuel - 1, 4, 1);
  }

  /**
   * With H_non_sys, as the section's heading says: word 4 is put right by a
   * single flip of bit 0, to the G_non_sys code word 0101 0101, and word 3 is
   * reported as multiple errors unchanged.
   */
  lemma ReceivedNonSys(fuel: nat)
    requires fuel >= 1
    ensures Diagnose(Received[0], HNonSys, fuel) == Success(Some(Diagnosis(ParityBitError, Received[0])))
    ensures Diagnose(Received[1], HNonSys, fuel) == Success(Some(Diagnosis(NoError, Received[1])))
    ensures Diagnose(Received[2], HNonSys, fuel) == Success(Some(Diagnosis(MultipleErrors, Received[2])))
    ensures Diagnose(Received[3], HNonSys, fuel) == Success(Some(Diagnosis(Corrected, [0, 1, 0, 1, 0, 1, 0, 1])))
  {
    StatusNonSysWord1();
    StatusNonSysWord2();
    StatusNonSysWord3();
    FourthNonSys(fuel);
  }

  lemma FourthNonSys(fuel: nat)
    requires fuel >= 1
    ensures Diagnose(Received[3], HNonSys, fuel) == Success(Some(Diagnosis(Corrected, [0, 1, 0, 1, 0, 1, 0, 1])))
  {
    var x, y := Received[3], [0, 1, 0, 1, 0, 1, 0, 1];
    StatusNonSysWord4();
    StatusNonSysWord4Flipped();
    assert Flip(x, 0) == y;
    CorrectStep(x, y, HNonSys, fuel - 1, 0, 0);
  }

  // The syndromes of the received words and of the words the loop flips them to.

  lemma StatusSysWord1()
    ensures Number(Received[0], HSys) == 0 && Parity(Received[0], HSys) == 1
  {
    var x := Received[0];
    StatusOf(x, HSys, [0, 0, 0, 1]);
  }

  lemma StatusSysWord2()
    ensures Number(Received[1], HSys) == 0 && Parity(Received[1], HSys) == 0
  {
    var x := Received[1];
    StatusOf(x, HSys, [0, 0, 0, 0]);
  }

  lemma StatusSysWord3()
    ensures Number(Received[2], HSys) == 1 && Parity(Received[2], HSys) == 1
  {
    var x := Received[2];
    StatusOf(x, HSys, [1, 0, 0, 1]);
  }

  lemma StatusSysWord3Flipped()
    ensures Number([0, 1, 0, 1, 1, 0, 1, 1], HSys) == 7 && Parity([0, 1, 0, 1, 1, 0, 1, 1], HSys) == 0
  {
    var x := [0, 1, 0, 1, 1, 0, 1, 1];
    StatusOf(x, HSys, [1, 1, 1, 0]);
  }

  lemma StatusSysWord4()
    ensures Number(Received[3], HSys) == 6 && Parity(Received[3], HSys) == 1
  {
    var x := Received[3];
    StatusOf(x, HSys, [0, 1, 1, 1]);
  }

  lemma StatusSysWord4Flipped1()
    ensures Number([1, 1, 0, 1, 0, 0, 0, 1], HSys) == 4 && Parity([1, 1, 0, 1, 0, 0, 0, 1], HSys) == 1
  {
    var x := [1, 1, 0, 1, 0, 0, 0, 1];
    StatusOf(x, HSys, [0, 0, 1, 1]);
  }

  lemma StatusSysWord4Flipped2()
    ensures Number([1, 1, 0, 0, 0, 0, 0, 1], HSys) == 3 && Parity([1, 1, 0, 0, 0, 0, 0, 1], HSys) == 1
  {
    var x := [1, 1, 0, 0, 0, 0, 0, 1];
    StatusOf(x, HSys, [1, 1, 0, 1]);
  }

  lemma StatusSysWord4Flipped3()
    ensures Number([1, 1, 1, 0, 0, 0, 0, 1], HSys) == 0 && Parity([1, 1, 1, 0, 0, 0, 0, 1], HSys) == 0
  {
    var x := [1, 1, 1, 0, 0, 0, 0, 1];
    StatusOf(x, HSys, [0, 0, 0, 0]);
  }

  lemma StatusNonSysWord1()
    ensures Number(Received[0], HNonSys) == 0 && Parity(Received[0], HNonSys) == 1
  {
    var x := Received[0];
    StatusOf(x, HNonSys, [0, 0, 0, 1]);
  }

  lemma StatusNonSysWord2()
    ensures Number(Received[1], HNonSys) == 0 && Parity(Received[1], HNonSys) == 0
  {
    var x := Received[1];
    StatusOf(x, HNonSys, [0, 0, 0, 0]);
  }

  lemma StatusNonSysWord3()
    ensures Number(Received[2], HNonSys) == 5 && Parity(Received[2], HNonSys) == 0
  {
    var x := Received[2];
    StatusOf(x, HNonSys, [1, 0, 1, 0]);
  }

  lemma StatusNonSysWord4()
    ensures Number(Received[3], HNonSys) == 1 && Parity(Received[3], HNonSys) == 1
  {
    var x := Received[3];
    StatusOf(x, HNonSys, [1, 0, 0, 1]);
  }

  lemma StatusNonSysWord4Flipped()
    ensures Number([0, 1, 0, 1, 0, 1, 0, 1], HNonSys) == 0 && Parity([0, 1, 0, 1, 0, 1, 0, 1], HNonSys) == 0
  {
    var x := [0, 1, 0, 1, 0, 1, 0, 1];
    StatusOf(x, HNonSys, [0, 0, 0, 0]);
  }
}
