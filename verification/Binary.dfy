/** `int2bin`, `bin2int` and `binary_range` of rad_util.py. */
module Binary {
  import opened Results

  datatype BinError = KeyError | ValueError

  predicate IsBit(c: char) {
    c == '0' || c == '1'
  }

  predicate IsBits(s: string) {
    forall i :: 0 <= i < |s| ==> IsBit(s[i])
  }

  function BitOf(c: char): nat {
    if c == '1' then 1 else 0
  }

  /** `bin2int`: the number that a string of bits denotes, most significant bit first. */
  function Bin2Int(s: string): nat {
    if s == "" then 0 else 2 * Bin2Int(s[..|s| - 1]) + BitOf(s[|s| - 1])
  }

  /** `v` shifted left by `k` places. */
  function Shift(v: nat, k: nat): nat {
    if k == 0 then v else 2 * Shift(v, k - 1)
  }

  /** 2 to the power `n`. */
  function Pow2(n: nat): nat {
    Shift(1, n)
  }

  // ----- int2bin -------------------------------------------------------------

  function HexDigits(i: nat): (r: seq<nat>)
    ensures r != [] && forall k :: 0 <= k < |r| ==> r[k] < 16
  {
    if i < 16 then [i] else HexDigits(i / 16) + [i % 16]
  }

  const HEX2BIN: seq<string> :=
    ["0000", "0001", "0010", "0011", "0100", "0101", "0110", "0111",
     "1000", "1001", "1010", "1011", "1100", "1101", "1110", "1111"]

  function Expand(digits: seq<nat>): string
    requires forall k :: 0 <= k < |digits| ==> digits[k] < 16
  {
    if digits == [] then "" else Expand(digits[..|digits| - 1]) + HEX2BIN[digits[|digits| - 1]]
  }

  /** The slices `s[:k]` and `s[k:]` for any integer `k`. */
  function SliceTo(s: string, k: int): string {
    if k >= |s| then s else if k >= 0 then s[..k] else if -k >= |s| then "" else s[..|s| + k]
  }

  function SliceFrom(s: string, k: int): string {
    if k >= |s| then "" else if k >= 0 then s[k..] else if -k >= |s| then s else s[|s| + k..]
  }

  function Zeros(k: int): string {
    if k <= 0 then "" else "0" + Zeros(k - 1)
  }

  /** For a negative number the digits begin with an `x`, which the table does not have. */
  function Int2Bin(i: int, n: int): Result<string, BinError> {
    if i < 0 then Err(KeyError)
    else
      var result := Expand(HexDigits(i));
      if '1' in SliceTo(result, -n) then Err(ValueError)
      else
        var low := SliceFrom(result, -n);
        Ok(Zeros(n - |low|) + low)
  }

  // ----- values ----------------------------------------------------------------

  lemma {:induction false} ShiftAdd(a: nat, b: nat, k: nat)
    ensures Shift(a, k) + Shift(b, k) == Shift(a + b, k)
  {
    if k > 0 {
      ShiftAdd(a, b, k - 1);
    }
  }

  lemma {:induction false} ShiftBounds(v: nat, k: nat)
    ensures v > 0 ==> Shift(v, k) >= Pow2(k)
    ensures Shift(0, k) == 0 && Pow2(k) > 0
  {
    if k > 0 {
      ShiftBounds(v, k - 1);
    }
  }

  lemma {:induction false} ConcatValue(a: string, b: string)
    ensures Bin2Int(a + b) == Shift(Bin2Int(a), |b|) + Bin2Int(b)
  {
    if b == "" {
      assert a + b == a;
    } else {
      var front := b[..|b| - 1];
      ConcatValue(a, front);
      assert (a + b)[..|a + b| - 1] == a + front;
    }
  }

  lemma {:induction false} ValueBound(s: string)
    ensures Bin2Int(s) < Pow2(|s|)
  {
    if s != "" {
      ValueBound(s[..|s| - 1]);
    }
  }

  lemma {:induction false} ValueInjective(a: string, b: string)
    requires IsBits(a) && IsBits(b) && |a| == |b| && Bin2Int(a) == Bin2Int(b)
    ensures a == b
  {
    if a != "" {
      var n := |a| - 1;
      assert IsBit(a[n]) && IsBit(b[n]);
      ValueInjective(a[..n], b[..n]);
      assert a == a[..n] + [a[n]] && b == b[..n] + [b[n]];
    }
  }

  lemma {:induction false} ZeroValue(s: string)
    requires IsBits(s)
    ensures Bin2Int(s) == 0 <==> '1' !in s
  {
    if s != "" {
      var n := |s| - 1;
      assert IsBit(s[n]);
      ZeroValue(s[..n]);
      assert s == s[..n] + [s[n]];
    }
  }

  lemma FourBits(a: char, b: char, c: char, d: char)
    ensures Bin2Int([a, b, c, d]) == 8 * BitOf(a) + 4 * BitOf(b) + 2 * BitOf(c) + BitOf(d)
  {
    assert [a][..0] == "" && Bin2Int([a]) == BitOf(a);
    assert [a, b][..1] == [a] && Bin2Int([a, b]) == 2 * Bin2Int([a]) + BitOf(b);
    assert [a, b, c][..2] == [a, b] && Bin2Int([a, b, c]) == 2 * Bin2Int([a, b]) + BitOf(c);
    assert [a, b, c, d][..3] == [a, b, c];
  }

  lemma NibbleValue(d: nat)
    requires d < 16
    ensures |HEX2BIN[d]| == 4 && IsBits(HEX2BIN[d]) && Bin2Int(HEX2BIN[d]) == d
  {
    var s := HEX2BIN[d];
    assert |s| == 4 && IsBits(s);
    FourBits(s[0], s[1], s[2], s[3]);
    assert s == [s[0], s[1], s[2], s[3]];
  }

  lemma {:induction false} ExpandValue(i: nat)
    ensures IsBits(Expand(HexDigits(i))) && Bin2Int(Expand(HexDigits(i))) == i
  {
    var ds := HexDigits(i);
    NibbleValue(ds[|ds| - 1]);
    hide Bin2Int;
    if i < 16 {
      assert ds[..0] == [];
      assert Expand(ds) == "" + HEX2BIN[i] == HEX2BIN[i];
    } else {
      ExpandValue(i / 16);
      assert ds[..|ds| - 1] == HexDigits(i / 16);
      ConcatValue(Expand(HexDigits(i / 16)), HEX2BIN[i % 16]);
      ShiftFour(i / 16);
    }
  }

  lemma ShiftFour(v: nat)
    ensures Shift(v, 4) == 16 * v
  {
    assert Shift(v, 2) == 2 * Shift(v, 1) == 4 * v;
  }

  lemma {:induction false} ZerosAre(k: int)
    ensures |Zeros(k)| == (if k <= 0 then 0 else k) && IsBits(Zeros(k)) && '1' !in Zeros(k)
  {
    if k > 0 {
      ZerosAre(k - 1);
    }
  }

  /** `int2bin(i, n)` raises exactly when `i` needs more than `n` bits; otherwise it gives the `n` bits of `i`. */
  lemma Int2BinMeaning(i: nat, n: nat)
    requires n >= 1
    ensures Int2Bin(i, n).Ok? <==> i < Pow2(n)
    ensures Int2Bin(i, n).Err? ==> Int2Bin(i, n).error == ValueError
    ensures Int2Bin(i, n).Ok? ==>
      var s := Int2Bin(i, n).value; |s| == n && IsBits(s) && Bin2Int(s) == i
  {
    hide Bin2Int, Expand, HexDigits, Shift, Pow2, Zeros;
    var s := Expand(HexDigits(i));
    ExpandValue(i);
    ValueBound(s);
    var width: int := n;
    var head, low := SliceTo(s, -width), SliceFrom(s, -width);
    assert s == head + low;
    ConcatValue(head, low);
    ZeroValue(head);
    ValueBound(low);
    ShiftBounds(Bin2Int(head), |low|);
    if |s| >= n {
      assert |low| == n;
    } else {
      assert head == "" && low == s;
      Pow2Grows(|s|, n);
    }
    var zeros := Zeros(n - |low|);
    ZerosAre(n - |low|);
    ZeroValue(zeros);
    ConcatValue(zeros, low);
  }

  lemma {:induction false} Pow2Grows(a: nat, b: nat)
    requires a <= b
    ensures Pow2(a) <= Pow2(b)
    decreases b
  {
    ShiftBounds(1, b);
    if a < b {
      Pow2Grows(a, b - 1);
    }
  }

  /** Printing the value of a string of bits at its own length gives the string back. */
  lemma Int2BinOfBits(s: string)
    requires s != "" && IsBits(s)
    ensures Int2Bin(Bin2Int(s), |s|) == Ok(s)
  {
    ValueBound(s);
    Int2BinMeaning(Bin2Int(s), |s|);
    ValueInjective(Int2Bin(Bin2Int(s), |s|).value, s);
  }

  /** A negative number, and a width of zero, which truncates nothing. */
  lemma Int2BinOdd(i: int)
    ensures i < 0 ==> forall n: int :: Int2Bin(i, n) == Err(KeyError)
    ensures i >= 0 ==> Int2Bin(i, 0) == Ok(Expand(HexDigits(i)))
  {
    if i >= 0 {
      var s := Expand(HexDigits(i));
      ExpandValue(i);
      assert HexDigits(i) != [] && Expand(HexDigits(i)) != "";
      assert SliceTo(s, 0) == "" && SliceFrom(s, 0) == s;
      assert Zeros(0 - |s|) + s == s;
    }
  }

  // ----- binary_range ------------------------------------------------------------

  function Reverse(s: string): string {
    if s == "" then "" else Reverse(s[1..]) + [s[0]]
  }

  /** The value of bits with the least significant one first. */
  function LowValue(v: string): nat {
    if v == "" then 0 else BitOf(v[0]) + 2 * LowValue(v[1..])
  }

  lemma {:induction false} ReverseValue(v: string)
    requires IsBits(v)
    ensures |Reverse(v)| == |v| && IsBits(Reverse(v)) && Bin2Int(Reverse(v)) == LowValue(v)
  {
    if v != "" {
      ReverseValue(v[1..]);
      var r := Reverse(v);
      assert r[..|r| - 1] == Reverse(v[1..]);
    }
  }

  /** One round of the ripple: the ones at the front become zeros, the first zero becomes a one. */
  lemma {:induction false} RippleValue(v: string, w: string, i: nat)
    requires |v| == |w| && i < |v|
    requires forall k :: 0 <= k < i ==> v[k] == '1' && w[k] == '0'
    requires v[i] == '0' && w[i] == '1'
    requires forall k :: i < k < |v| ==> v[k] == w[k]
    ensures LowValue(w) == LowValue(v) + 1
  {
    if i == 0 {
      assert v[1..] == w[1..];
    } else {
      RippleValue(v[1..], w[1..], i - 1);
    }
  }

  lemma {:induction false} AllOnes(v: string)
    requires forall k :: 0 <= k < |v| ==> v[k] == '1'
    ensures LowValue(v) + 1 == Pow2(|v|)
  {
    if v != "" {
      AllOnes(v[1..]);
    }
  }

  lemma {:induction false} AllZeros(v: string)
    requires forall k :: 0 <= k < |v| ==> v[k] == '0'
    ensures LowValue(v) == 0
  {
    if v != "" {
      AllZeros(v[1..]);
    }
  }

  /** The inner loop: add one to `v`; `toggle[bits]` is the carry out of the last place. */
  method Ripple(v: array<char>, toggle: array<int>, bits: nat)
    requires v.Length == bits && toggle.Length == bits + 1 && IsBits(v[..])
    requires toggle[0] == 1 && forall k :: 1 <= k <= bits ==> toggle[k] == 0
    modifies v, toggle
    ensures IsBits(v[..])
    ensures toggle[bits] == 0 || toggle[bits] == 1
    ensures toggle[bits] == 1 ==> LowValue(v[..]) == 0 && LowValue(old(v[..])) + 1 == Pow2(bits)
    ensures toggle[bits] == 0 ==> LowValue(v[..]) == LowValue(old(v[..])) + 1
  {
    ghost var before := v[..];
    ghost var flipped: nat := bits;
    var i := 0;
    while i < bits && toggle[i] == 1
      invariant i <= bits && IsBits(v[..])
      invariant toggle[i] == 0 || toggle[i] == 1
      invariant forall k :: i < k <= bits ==> toggle[k] == 0
      invariant toggle[i] == 1 ==>
        && (forall k :: 0 <= k < i ==> before[k] == '1' && v[k] == '0')
        && (forall k :: i <= k < bits ==> v[k] == before[k])
      invariant toggle[i] == 0 ==>
        && flipped < bits && flipped + 1 == i && before[flipped] == '0' && v[flipped] == '1'
        && (forall k :: 0 <= k < flipped ==> before[k] == '1' && v[k] == '0')
        && (forall k :: flipped < k < bits ==> v[k] == before[k])
    {
      assert IsBit(v[..][i]);
      if v[i] == '0' {
        v[i] := '1';
        toggle[i + 1] := 0;
        flipped := i;
      } else {
        v[i] := '0';
        toggle[i + 1] := 1;
      }
      i := i + 1;
    }
    if toggle[i] == 1 {
      AllOnes(before);
      AllZeros(v[..]);
    } else {
      RippleValue(before, v[..], flipped);
    }
  }

  /** The list holds the strings for 0, 1, 2 and so on. */
  ghost predicate InOrder(l: seq<string>, bits: nat) {
    forall k :: 0 <= k < |l| ==> Int2Bin(k, bits) == Ok(l[k])
  }

  lemma NextInOrder(l: seq<string>, bits: nat, v: string)
    requires InOrder(l, bits) && IsBits(v) && |v| == bits >= 1 && LowValue(v) == |l|
    ensures InOrder(l + [Reverse(v)], bits) && |l| < Pow2(bits)
  {
    ReverseValue(v);
    ValueBound(Reverse(v));
    Int2BinOfBits(Reverse(v));
  }

  lemma ReadyToCount(v: string, bits: nat)
    requires forall k :: 0 <= k < |v| ==> v[k] == '0'
    ensures LowValue(v) == 0 && Pow2(bits) > 0
  {
    AllZeros(v);
    ShiftBounds(1, bits);
  }

  /** All strings of `bits` bits, in order; none at all for a width of zero. */
  method BinaryRange(bits: nat) returns (l: seq<string>)
    ensures bits == 0 ==> l == []
    ensures bits >= 1 ==> |l| == Pow2(bits) && InOrder(l, bits)
  {
    hide Pow2, LowValue, Int2Bin;
    l := [];
    var v := new char[bits](_ => '0');
    var toggle := new int[bits + 1](i => if i == 0 then 1 else 0);
    ReadyToCount(v[..], bits);
    while toggle[bits] != 1
      invariant fresh(v) && v.Length == bits && fresh(toggle) && toggle.Length == bits + 1
      invariant IsBits(v[..])
      invariant bits == 0 ==> l == [] && toggle[0] == 1
      invariant bits >= 1 && toggle[bits] != 1 ==> LowValue(v[..]) == |l|
      invariant bits >= 1 && toggle[bits] == 1 ==> |l| == Pow2(bits)
      invariant InOrder(l, bits)
      decreases Pow2(bits) - |l|
    {
      hide InOrder;
      NextInOrder(l, bits, v[..]);
      l := l + [Reverse(v[..])];
      toggle := new int[bits + 1](i => if i == 0 then 1 else 0);
      Ripple(v, toggle, bits);
    }
  }
}
