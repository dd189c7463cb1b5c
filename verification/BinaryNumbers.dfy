// Strings of binary digits: counting through them, and converting from and to integers.
module BinaryNumbers {
  datatype Result<+T> = Ok(value: T) | ValueError

  function Pow2(n: nat): (p: nat)
    ensures p >= 1
  {
    if n == 0 then 1 else 2 * Pow2(n - 1)
  }

  predicate IsBinary(s: string) {
    forall k :: 0 <= k < |s| ==> s[k] == '0' || s[k] == '1'
  }

  function Digit(c: char): nat {
    if c == '1' then 1 else 0
  }

  /** The number written by the first n digits of s, most significant first; bin2int reads the whole string. */
  function Value(s: string, n: nat): nat
    requires n <= |s|
  {
    if n == 0 then 0 else 2 * Value(s, n - 1) + Digit(s[n - 1])
  }

  function Bin2Int(s: string): nat {
    Value(s, |s|)
  }

  lemma DoubledProduct(v: nat, p: nat)
    ensures v * (2 * p) == 2 * (v * p)
  {
  }

  lemma {:induction false} ValueConcat(a: string, b: string, n: nat)
    requires n <= |b|
    ensures Value(a + b, |a| + n) == Value(a, |a|) * Pow2(n) + Value(b, n)
  {
    if n > 0 {
      var v, p := Value(a, |a|), Pow2(n - 1);
      ValueConcat(a, b, n - 1);
      DoubledProduct(v, p);
      assert (a + b)[|a| + n - 1] == b[n - 1];
    } else {
      ValuePrefix(a, b, |a|);
    }
  }

  lemma {:induction false} ValuePrefix(a: string, b: string, n: nat)
    requires n <= |a|
    ensures Value(a + b, n) == Value(a, n)
  {
    if n > 0 {
      ValuePrefix(a, b, n - 1);
    }
  }

  lemma {:induction false} ValueBound(s: string, n: nat)
    requires n <= |s|
    ensures Value(s, n) < Pow2(n)
  {
    if n > 0 {
      ValueBound(s, n - 1);
    }
  }

  /** There is one way to write a number with a given count of digits. */
  lemma {:induction false} ValueInjective(a: string, b: string, n: nat)
    requires IsBinary(a) && IsBinary(b) && n <= |a| && n <= |b|
    requires Value(a, n) == Value(b, n)
    ensures a[..n] == b[..n]
  {
    if n > 0 {
      assert Value(a, n) / 2 == Value(a, n - 1) && Value(b, n) / 2 == Value(b, n - 1);
      assert Value(a, n) % 2 == Digit(a[n - 1]) && Value(b, n) % 2 == Digit(b[n - 1]);
      ValueInjective(a, b, n - 1);
      assert a[..n] == a[..n - 1] + [a[n - 1]] && b[..n] == b[..n - 1] + [b[n - 1]];
    }
  }

  // ----- int2bin

  /** The four binary digits of a hexadecimal one. */
  function Nibble(d: nat): (s: string)
    requires d < 16
    ensures |s| == 4 && IsBinary(s)
  {
    ["0000", "0001", "0010", "0011", "0100", "0101", "0110", "0111", "1000", "1001", "1010", "1011", "1100", "1101", "1110", "1111"][d]
  }

  /** What the hexadecimal digits of i map to. */
  function HexToBin(i: nat): (s: string)
    ensures IsBinary(s) && |s| >= 4
  {
    if i < 16 then Nibble(i) else HexToBin(i / 16) + Nibble(i % 16)
  }

  function Zeros(n: int): (s: string)
    ensures |s| == (if n > 0 then n else 0) && forall k :: 0 <= k < |s| ==> s[k] == '0'
  {
    if n <= 0 then "" else Zeros(n - 1) + "0"
  }

  /** The first digits, of which the last n are to remain. */
  function Excess(s: string, n: nat): nat {
    if n < |s| then |s| - n else 0
  }

  /** Cuts or pads the digits to n of them; digits that get lost must be zeros. */
  function CutOrPad(s: string, n: nat): Result<string> {
    if '1' in s[..Excess(s, n)] then ValueError
    else Ok(Zeros(n - |s|) + s[Excess(s, n)..])
  }

  function Int2Bin(i: nat, n: nat): Result<string>
    requires n >= 1
  {
    CutOrPad(HexToBin(i), n)
  }

  lemma NibbleValue(d: nat)
    requires d < 16
    ensures Value(Nibble(d), 4) == d
  {
    var s := Nibble(d);
    assert Value(s, 4) == 8 * Digit(s[0]) + 4 * Digit(s[1]) + 2 * Digit(s[2]) + Digit(s[3]) by {
      assert Value(s, 1) == 2 * Value(s, 0) + Digit(s[0]);
      assert Value(s, 2) == 2 * Value(s, 1) + Digit(s[1]);
      assert Value(s, 3) == 2 * Value(s, 2) + Digit(s[2]);
    }
  }

  lemma {:induction false} HexToBinValue(i: nat)
    ensures Bin2Int(HexToBin(i)) == i
  {
    if i < 16 {
      NibbleValue(i);
    } else {
      HexToBinValue(i / 16);
      NibbleValue(i % 16);
      ValueConcat(HexToBin(i / 16), Nibble(i % 16), 4);
      assert Pow2(4) == 2 * Pow2(3) && Pow2(3) == 2 * Pow2(2) && Pow2(2) == 2 * Pow2(1);
    }
  }

  lemma {:induction false} ValueZero(s: string, n: nat)
    requires n <= |s|
    ensures Value(s, n) == 0 <==> '1' !in s[..n]
  {
    if n > 0 {
      ValueZero(s, n - 1);
      assert s[..n] == s[..n - 1] + [s[n - 1]];
    }
  }

  lemma SplitNumber(h: nat, p: nat, l: nat)
    requires p >= 1
    ensures h * p + l == l <==> h == 0
    ensures h >= 1 ==> h * p + l >= p
  {
  }

  lemma Bin2IntConcat(high: string, low: string)
    ensures Bin2Int(high + low) == Bin2Int(high) * Pow2(|low|) + Bin2Int(low)
  {
    ValueConcat(high, low, |low|);
  }

  lemma Bin2IntZero(s: string)
    ensures Bin2Int(s) == 0 <==> '1' !in s
  {
    ValueZero(s, |s|);
    assert s[..|s|] == s;
  }

  /** Digits in front of the last ones change the value unless they are zeros. */
  lemma HighDigits(high: string, low: string)
    ensures '1' !in high ==> Bin2Int(high + low) == Bin2Int(low)
    ensures '1' in high ==> Bin2Int(high + low) >= Pow2(|low|)
  {
    Bin2IntConcat(high, low);
    Bin2IntZero(high);
    SplitNumber(Bin2Int(high), Pow2(|low|), Bin2Int(low));
  }

  lemma CutMeans(s: string, n: nat)
    requires IsBinary(s) && n < |s|
    ensures CutOrPad(s, n).Ok? <==> Bin2Int(s) < Pow2(n)
    ensures CutOrPad(s, n).Ok? ==> var t := CutOrPad(s, n).value; IsBinary(t) && |t| == n && Bin2Int(t) == Bin2Int(s)
  {
    var high, low := s[..|s| - n], s[|s| - n..];
    assert s == high + low;
    assert CutOrPad(s, n) == if '1' in high then ValueError else Ok(low) by {
      assert Excess(s, n) == |s| - n && Zeros(n - |s|) + low == low;
    }
    HighDigits(high, low);
    ValueBound(low, n);
  }

  lemma PadMeans(s: string, n: nat)
    requires IsBinary(s) && |s| <= n
    ensures CutOrPad(s, n) == Ok(Zeros(n - |s|) + s) && Bin2Int(s) < Pow2(n)
    ensures var t := Zeros(n - |s|) + s; IsBinary(t) && |t| == n && Bin2Int(t) == Bin2Int(s)
  {
    assert s[0..] == s && s[..0] == "";
    HighDigits(Zeros(n - |s|), s);
    ValueBound(s, |s|);
    Pow2Monotone(|s|, n);
  }

  lemma CutOrPadMeans(s: string, n: nat)
    requires IsBinary(s)
    ensures CutOrPad(s, n).Ok? <==> Bin2Int(s) < Pow2(n)
    ensures CutOrPad(s, n).Ok? ==> var t := CutOrPad(s, n).value; IsBinary(t) && |t| == n && Bin2Int(t) == Bin2Int(s)
  {
    if n < |s| {
      CutMeans(s, n);
    } else {
      PadMeans(s, n);
    }
  }

  /** int2bin fails exactly on what does not fit, and what it yields is read back by bin2int. */
  lemma Int2BinMeans(i: nat, n: nat)
    requires n >= 1
    ensures Int2Bin(i, n).Ok? <==> i < Pow2(n)
    ensures Int2Bin(i, n).Ok? ==> var s := Int2Bin(i, n).value; IsBinary(s) && |s| == n && Bin2Int(s) == i
  {
    HexToBinValue(i);
    CutOrPadMeans(HexToBin(i), n);
  }

  lemma {:induction false} Pow2Monotone(m: nat, n: nat)
    requires m <= n
    ensures Pow2(m) <= Pow2(n)
  {
    if m < n {
      Pow2Monotone(m, n - 1);
    }
  }

  lemma Int2BinUnique(i: nat, n: nat, s: string)
    requires n >= 1 && IsBinary(s) && |s| == n && Bin2Int(s) == i
    ensures Int2Bin(i, n) == Ok(s)
  {
    ValueBound(s, n);
    Int2BinMeans(i, n);
    var t := Int2Bin(i, n).value;
    ValueInjective(s, t, n);
    assert s[..n] == s && t[..n] == t;
  }

  // ----- binary_range

  /** The number written by the first n digits of v, least significant first. */
  function Low(v: string, n: nat): nat
    requires n <= |v|
  {
    if n == 0 then 0 else Low(v, n - 1) + if v[n - 1] == '1' then Pow2(n - 1) else 0
  }

  function Reversed(v: string): (r: string)
    ensures |r| == |v| && forall k :: 0 <= k < |v| ==> r[k] == v[|v| - 1 - k]
  {
    seq(|v|, k requires 0 <= k < |v| => v[|v| - 1 - k])
  }

  lemma {:induction false} LowPrefix(v: string, m: nat, n: nat)
    requires n <= m <= |v|
    ensures Low(v[..m], n) == Low(v, n)
  {
    if n > 0 {
      LowPrefix(v, m, n - 1);
    }
  }

  lemma {:induction false} ReversedValue(v: string)
    ensures Bin2Int(Reversed(v)) == Low(v, |v|)
    decreases |v|
  {
    if v != "" {
      var n := |v| - 1;
      var front, last := v[..n], [v[n]];
      ReversedValue(front);
      LowPrefix(v, n, n);
      assert Reversed(v) == last + Reversed(front);
      ValueConcat(last, Reversed(front), n);
      assert Value(last, 1) == 2 * Value(last, 0) + Digit(v[n]);
    }
  }

  lemma {:induction false} LowSame(v: string, w: string, i: nat, n: nat)
    requires |v| == |w| && i <= n <= |v| && forall k :: i <= k < n ==> v[k] == w[k]
    ensures Low(v, n) - Low(v, i) == Low(w, n) - Low(w, i)
  {
    if i < n {
      LowSame(v, w, i, n - 1);
    }
  }

  lemma {:induction false} LowZeros(v: string, n: nat)
    requires n <= |v| && forall k :: 0 <= k < |v| ==> v[k] == '0'
    ensures Low(v, n) == 0
  {
    if n > 0 {
      LowZeros(v, n - 1);
    }
  }

  /** One pass of the toggle loop: adds one to v by rippling a carry; toggle[bits] is the carry out. */
  method Increment(v0: string) returns (v: string, toggle: seq<int>)
    requires v0 != "" && IsBinary(v0)
    ensures |v| == |v0| && IsBinary(v) && |toggle| == |v0| + 1
    ensures Low(v, |v|) + (if toggle[|v0|] == 1 then Pow2(|v|) else 0) == Low(v0, |v|) + 1
  {
    var bits := |v0|;
    v := v0;
    toggle := [1] + seq(bits, _ => 0);
    var i := 0;
    while i < bits && toggle[i] == 1
      invariant 0 <= i <= bits && |v| == bits && |toggle| == bits + 1 && IsBinary(v)
      invariant forall k :: i <= k < bits ==> v[k] == v0[k]
      invariant forall k :: i < k <= bits ==> toggle[k] == 0
      invariant toggle[i] == 0 || toggle[i] == 1
      invariant Low(v, i) + (if toggle[i] == 1 then Pow2(i) else 0) == Low(v0, i) + 1
    {
      ghost var before := v;
      if v[i] == '0' {
        v := v[i := '1'];
        toggle := toggle[i + 1 := 0];
      } else {
        v := v[i := '0'];
        toggle := toggle[i + 1 := 1];
      }
      LowSame(before, v, 0, i);
      i := i + 1;
    }
    LowSame(v, v0, i, bits);
  }

  /** All strings of so many binary digits, in order; none at all for width zero. */
  method BinaryRange(bits: nat) returns (l: seq<string>)
    ensures bits == 0 ==> l == []
    ensures bits > 0 ==> |l| == Pow2(bits)
    ensures bits > 0 ==> forall k :: 0 <= k < |l| ==> Int2Bin(k, bits) == Ok(l[k]) && Bin2Int(l[k]) == k
  {
    l := [];
    var v := seq(bits, _ => '0');
    var toggle: seq<int> := [1] + seq(bits, _ => 0);
    LowZeros(v, bits);
    while toggle[bits] != 1
      invariant |v| == bits && IsBinary(v) && |toggle| == bits + 1
      invariant bits == 0 ==> toggle[0] == 1 && l == []
      invariant |l| <= Pow2(bits)
      invariant bits > 0 ==> Low(v, bits) + (if toggle[bits] == 1 then Pow2(bits) else 0) == |l|
      invariant forall k :: 0 <= k < |l| ==> bits > 0 && Int2Bin(k, bits) == Ok(l[k]) && Bin2Int(l[k]) == k
      decreases Pow2(bits) - |l|
    {
      ReversedValue(v);
      Int2BinUnique(|l|, bits, Reversed(v));
      ValueBound(Reversed(v), bits);
      l := l + [Reversed(v)];
      v, toggle := Increment(v);
    }
    if bits > 0 {
      ReversedValue(v);
      ValueBound(Reversed(v), bits);
    }
  }
}
