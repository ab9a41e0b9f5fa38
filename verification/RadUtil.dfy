/** Bit strings: bindings/python/rad_util.py. */
module RadUtil {
  import opened Common

  // ----- reference definitions

  function PowerOfTwo(n: nat): (p: nat)
    ensures p >= 1
  {
    if n == 0 then 1 else 2 * PowerOfTwo(n - 1)
  }

  function Bit(d: nat): char {
    if d == 0 then '0' else '1'
  }

  /** The low `n` binary digits of `k`, most significant first. */
  function Binary(k: nat, n: nat): (s: string)
    ensures |s| == n
  {
    if n == 0 then "" else Binary(k / 2, n - 1) + [Bit(k % 2)]
  }

  predicate BitString(s: string) {
    forall i :: 0 <= i < |s| ==> s[i] == '0' || s[i] == '1'
  }

  /** The number a bit string spells. */
  function Value(s: string): nat {
    if s == [] then 0 else 2 * Value(s[..|s|-1]) + if s[|s|-1] == '1' then 1 else 0
  }

  lemma {:induction false} BinaryValue(k: nat, n: nat)
    requires k < PowerOfTwo(n)
    ensures BitString(Binary(k, n)) && Value(Binary(k, n)) == k
    decreases n
  {
    if n > 0 {
      BinaryValue(k / 2, n - 1);
      assert Binary(k, n)[..n-1] == Binary(k / 2, n - 1);
    }
  }

  lemma {:induction false} ValueBinary(s: string)
    requires BitString(s)
    ensures Value(s) < PowerOfTwo(|s|) && Binary(Value(s), |s|) == s
    decreases |s|
  {
    if s != [] {
      ValueBinary(s[..|s|-1]);
      assert s == s[..|s|-1] + [s[|s|-1]];
    }
  }

  // ----- int2bin and bin2int, lines 90-105 and 130

  datatype Result<T> = Ok(value: T) | ValueError | KeyError

  function HexDigits(i: nat): (digits: seq<nat>)
    ensures digits != [] && forall d :: d in digits ==> d < 16
  {
    if i < 16 then [i] else HexDigits(i / 16) + [i % 16]
  }

  /** `''.join` over the table from hexadecimal digits to four bits. */
  function Nibbles(digits: seq<nat>): string {
    if digits == [] then "" else Nibbles(digits[..|digits|-1]) + Binary(digits[|digits|-1], 4)
  }

  /** Python's `s[:-n]` and `s[-n:]` for n >= 0: with n = 0 they are `s[:0]` and `s[0:]`. */
  function DropLast(s: string, n: nat): string {
    if n == 0 || n >= |s| then "" else s[..|s|-n]
  }

  function TakeLast(s: string, n: nat): string {
    if n == 0 || n >= |s| then s else s[|s|-n..]
  }

  function Zeros(n: int): (s: string)
    ensures |s| == if n > 0 then n else 0
  {
    if n <= 0 then "" else Zeros(n - 1) + "0"
  }

  /** Negative numbers fail on the 'x' of "-0x..." in the table lookup. */
  function Int2Bin(i: int, n: nat): Result<string> {
    if i < 0 then KeyError
    else
      var result := Nibbles(HexDigits(i));
      if '1' in DropLast(result, n) then ValueError
      else Ok(Zeros(n - |TakeLast(result, n)|) + TakeLast(result, n))
  }

  /** `int(s, 2)` on strings of bits. */
  function Bin2Int(s: string): Result<nat> {
    if s == "" || !BitString(s) then ValueError else Ok(Value(s))
  }

  lemma Doubled(v: nat, q: nat)
    ensures v * (2 * q) == 2 * (v * q)
  {
  }

  lemma {:induction false} ValueConcat(s: string, t: string)
    requires BitString(s) && BitString(t)
    ensures BitString(s + t) && Value(s + t) == Value(s) * PowerOfTwo(|t|) + Value(t)
    decreases |t|
  {
    if t == [] {
      assert s + t == s;
    } else {
      var u := t[..|t|-1];
      ValueConcat(s, u);
      assert (s + t)[..|s+t|-1] == s + u;
      Doubled(Value(s), PowerOfTwo(|u|));
    }
  }

  lemma {:induction false} NibblesValue(i: nat)
    ensures BitString(Nibbles(HexDigits(i))) && Value(Nibbles(HexDigits(i))) == i && |Nibbles(HexDigits(i))| >= 4
    decreases i
  {
    if i < 16 {
      NibbleStep("", i);
      assert Nibbles([i]) == "" + Binary(i, 4);
    } else {
      NibblesValue(i / 16);
      var digits := HexDigits(i);
      assert digits[..|digits|-1] == HexDigits(i / 16);
      NibbleStep(Nibbles(HexDigits(i / 16)), i % 16);
    }
  }

  lemma NibbleStep(s: string, d: nat)
    requires BitString(s) && d < 16
    ensures BitString(s + Binary(d, 4)) && Value(s + Binary(d, 4)) == 16 * Value(s) + d
  {
    assert PowerOfTwo(4) == 16 by { assert PowerOfTwo(2) == 4; }
    BinaryValue(d, 4);
    ValueConcat(s, Binary(d, 4));
    hide Binary, Value, PowerOfTwo;
  }

  lemma {:induction false} NoOnes(s: string)
    requires BitString(s)
    ensures Value(s) == 0 <==> '1' !in s
    decreases |s|
  {
    if s != [] {
      NoOnes(s[..|s|-1]);
    }
  }

  lemma {:induction false} ZerosAt(n: int)
    ensures forall i :: 0 <= i < |Zeros(n)| ==> Zeros(n)[i] == '0'
  {
    if n > 0 {
      ZerosAt(n - 1);
    }
  }

  lemma ZerosValue(n: int)
    ensures BitString(Zeros(n)) && Value(Zeros(n)) == 0 && '1' !in Zeros(n)
  {
    ZerosAt(n);
    hide Zeros, Value;
    NoOnes(Zeros(n));
  }

  /** For positive widths `int2bin` gives the n-digit binary form when there is one and raises
      `ValueError` when there is none. */
  lemma Int2BinCorrect(i: nat, n: nat)
    requires n >= 1
    ensures Int2Bin(i, n) == if i < PowerOfTwo(n) then Ok(Binary(i, n)) else ValueError
  {
    hide Nibbles, HexDigits, Binary, Value, PowerOfTwo, Zeros, BitString, DropLast, TakeLast;
    assert Int2Bin(i, n) == var r := Nibbles(HexDigits(i));
      if '1' in DropLast(r, n) then ValueError else Ok(Zeros(n - |TakeLast(r, n)|) + TakeLast(r, n));
    NibblesValue(i);
    Truncation(Nibbles(HexDigits(i)), n);
  }

  /** Lines 100-104 on any bit string: reject it when it does not fit, pad or cut it when it does. */
  lemma Truncation(full: string, n: nat)
    requires n >= 1 && BitString(full)
    ensures '1' in DropLast(full, n) <==> Value(full) >= PowerOfTwo(n)
    ensures '1' !in DropLast(full, n) ==> Zeros(n - |TakeLast(full, n)|) + TakeLast(full, n) == Binary(Value(full), n)
  {
    var top, low := DropLast(full, n), TakeLast(full, n);
    assert full == top + low;
    assert BitString(top) && BitString(low) && (|low| == n || (|low| < n && top == ""));
    hide DropLast, TakeLast, Value, Binary, PowerOfTwo, BitString;
    ZerosValue(n - |low|);
    var padded := Zeros(n - |low|) + low;
    TopPart(top, low);
    TopPart(Zeros(n - |low|), low);
    ValueBinary(padded);
    assert |padded| == n;
  }

  /** A one before the last |low| digits makes the number too large; zeros there add nothing. */
  lemma TopPart(top: string, low: string)
    requires BitString(top) && BitString(low)
    ensures BitString(top + low)
    ensures '1' in top ==> Value(top + low) >= PowerOfTwo(|low|)
    ensures '1' !in top ==> Value(top + low) == Value(low)
  {
    ValueConcat(top, low);
    NoOnes(top);
    TopWeight(Value(top), PowerOfTwo(|low|));
    hide *;
  }

  lemma TopWeight(v: nat, q: nat)
    ensures v >= 1 ==> v * q >= q
    ensures v == 0 ==> v * q == 0
  {
    MulOrder(1, v, q);
  }

  /** Width 0 is the exception: the truncation is a no-op there, so nothing is ever rejected and the
      result is never the empty string. */
  lemma Int2BinWidthZero(i: nat)
    ensures Int2Bin(i, 0) == Ok(Nibbles(HexDigits(i))) && |Nibbles(HexDigits(i))| >= 4
  {
    NibblesValue(i);
    var full := Nibbles(HexDigits(i));
    assert Zeros(0 - |full|) + full == full;
  }

  /** The law "width-n binary form if it fits, ValueError otherwise" holds exactly for n >= 1. */
  lemma Int2BinLaw(n: nat)
    ensures (forall i: nat :: Int2Bin(i, n) == if i < PowerOfTwo(n) then Ok(Binary(i, n)) else ValueError) <==> n >= 1
  {
    if n >= 1 {
      forall i: nat ensures Int2Bin(i, n) == if i < PowerOfTwo(n) then Ok(Binary(i, n)) else ValueError {
        Int2BinCorrect(i, n);
      }
    } else {
      Int2BinWidthZero(0);
      assert Int2Bin(0, n) != if 0 < PowerOfTwo(n) then Ok(Binary(0, n)) else ValueError;
    }
  }

  /** Round trips both ways. */
  lemma BinaryRoundTrips(i: nat, n: nat, s: string)
    requires 1 <= n && i < PowerOfTwo(n) && s != "" && BitString(s)
    ensures Int2Bin(i, n).Ok? && Bin2Int(Int2Bin(i, n).value) == Ok(i)
    ensures Bin2Int(s).Ok? && Int2Bin(Bin2Int(s).value, |s|) == Ok(s)
  {
    Int2BinCorrect(i, n);
    BinaryValue(i, n);
    ValueBinary(s);
    Int2BinCorrect(Value(s), |s|);
  }
}
