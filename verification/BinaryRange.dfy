/** The ripple counter `binary_range` of bindings/python/rad_util.py: two arrays updated in place. */
module BinaryRange {
  import opened RadUtil

  function Reverse(s: string): (r: string)
    ensures |r| == |s| && forall i :: 0 <= i < |s| ==> r[i] == s[|s|-1-i]
  {
    seq(|s|, i requires 0 <= i < |s| => s[|s|-1-i])
  }

  function Repeat(c: char, n: nat): (s: string)
    ensures |s| == n
  {
    seq(n, _ => c)
  }

  lemma {:induction false} AllOnes(n: nat)
    ensures BitString(Repeat('1', n)) && Value(Repeat('1', n)) == PowerOfTwo(n) - 1
    decreases n
  {
    if n > 0 {
      AllOnes(n - 1);
      assert Repeat('1', n)[..n-1] == Repeat('1', n - 1);
    }
  }

  lemma {:induction false} AllZeros(n: nat)
    ensures BitString(Repeat('0', n)) && Value(Repeat('0', n)) == 0
    decreases n
  {
    if n > 0 {
      AllZeros(n - 1);
      assert Repeat('0', n)[..n-1] == Repeat('0', n - 1);
    }
  }

  /** Turning the trailing ones and the zero before them around adds one. */
  lemma {:induction false} CarryAddsOne(high: string, p: nat)
    requires BitString(high)
    ensures BitString(high + "0" + Repeat('1', p)) && BitString(high + "1" + Repeat('0', p))
    ensures Value(high + "1" + Repeat('0', p)) == Value(high + "0" + Repeat('1', p)) + 1
    decreases p
  {
    if p == 0 {
      assert (high + "1" + Repeat('0', p))[..|high|] == high == (high + "0" + Repeat('1', p))[..|high|];
    } else {
      CarryAddsOne(high, p - 1);
      assert (high + "1" + Repeat('0', p))[..|high|+p] == high + "1" + Repeat('0', p - 1);
      assert (high + "0" + Repeat('1', p))[..|high|+p] == high + "0" + Repeat('1', p - 1);
    }
  }

  /** `w` is `v` (least significant digit first) after the first `p` ones became zeros and, unless
      they were all, the zero after them a one. */
  ghost predicate Carried(v: seq<char>, w: seq<char>, p: nat) {
    && |v| == |w| && p <= |v|
    && (forall a :: 0 <= a < p ==> v[a] == '1' && w[a] == '0')
    && (p < |v| ==> v[p] == '0' && w[p] == '1')
    && (forall a :: p < a < |v| ==> w[a] == v[a])
  }

  lemma CarriedValue(v: string, w: string, p: nat)
    requires BitString(v) && Carried(v, w, p)
    ensures BitString(w)
    ensures p < |v| ==> Value(Reverse(w)) == Value(Reverse(v)) + 1
    ensures p == |v| ==> Value(Reverse(v)) == PowerOfTwo(|v|) - 1
  {
    if p == |v| {
      assert Reverse(v) == Repeat('1', p);
      AllOnes(p);
    } else {
      var high := Shapes(v, w, p);
      CarryAddsOne(high, p);
      hide Value;
      assert BitString(w) by { assert forall a :: 0 <= a < |w| ==> w[a] == Reverse(w)[|w|-1-a]; }
    }
  }

  lemma Shapes(v: string, w: string, p: nat) returns (high: string)
    requires BitString(v) && Carried(v, w, p) && p < |v|
    ensures BitString(high) && Reverse(v) == high + "0" + Repeat('1', p) && Reverse(w) == high + "1" + Repeat('0', p)
  {
    high := Reverse(v)[..|v|-1-p];
    assert forall a :: 0 <= a < |high| ==> high[a] == v[|v|-1-a] == w[|v|-1-a];
  }

  /** Lines 649-659: resets `toggle` and lets the carry run through `v`. */
  method Ripple(v: array<char>) returns (toggle: array<int>, ghost p: nat)
    requires BitString(v[..])
    modifies v
    ensures Carried(old(v[..]), v[..], p)
    ensures fresh(toggle) && toggle.Length == v.Length + 1
    ensures v.Length > 0 ==> (toggle[v.Length] == 1 <==> p == v.Length)
  {
    var bits := v.Length;
    toggle := new int[bits + 1](i => if i == 0 then 1 else 0);
    ghost var v0 := v[..];
    var i := 0;
    p := 0;
    while i < bits && toggle[i] == 1
      invariant 0 <= i <= bits && p <= i
      invariant forall a :: 0 <= a < p ==> v0[a] == '1' && v[a] == '0'
      invariant if p == i then toggle[i] == 1 else p == i - 1 && toggle[i] == 0 && v0[p] == '0' && v[p] == '1'
      invariant forall a :: i <= a < bits ==> v[a] == v0[a]
      invariant forall a :: i < a <= bits ==> toggle[a] == 0
    {
      if v[i] == '0' {
        v[i] := '1';
        toggle[i+1] := 0;
      } else {
        assert v0[i] == '1';
        v[i] := '0';
        toggle[i+1] := 1;
        p := p + 1;
      }
      i := i + 1;
    }
  }

  /** One round of the counter: the string printed, and the value it moves on to. */
  lemma CountStep(before: string, after: string, p: nat, bits: nat)
    requires |before| == bits && bits > 0 && BitString(before) && Carried(before, after, p)
    ensures Reverse(before) == Binary(Value(Reverse(before)), bits) && BitString(after)
    ensures if p == bits then Value(Reverse(before)) + 1 == PowerOfTwo(bits)
            else Value(Reverse(after)) == Value(Reverse(before)) + 1 < PowerOfTwo(bits)
  {
    ValueBinary(Reverse(before));
    CarriedValue(before, after, p);
    if p < bits {
      ValueBinary(Reverse(after));
    }
  }

  lemma StartAtZero(s: string)
    requires forall i :: 0 <= i < |s| ==> s[i] == '0'
    ensures BitString(s) && Value(Reverse(s)) == 0 < PowerOfTwo(|s|)
  {
    assert Reverse(s) == Repeat('0', |s|);
    AllZeros(|s|);
  }

  /** Lines 645-659: one round of the outer loop, printing `v` and counting on. */
  method Round(v: array<char>) returns (printed: string, toggle: array<int>)
    requires BitString(v[..]) && v.Length > 0
    modifies v
    ensures BitString(v[..]) && fresh(toggle) && toggle.Length == v.Length + 1
    ensures printed == Binary(old(Value(Reverse(v[..]))), v.Length)
    ensures toggle[v.Length] == 1 ==> old(Value(Reverse(v[..]))) + 1 == PowerOfTwo(v.Length)
    ensures toggle[v.Length] != 1 ==> Value(Reverse(v[..])) == old(Value(Reverse(v[..]))) + 1 < PowerOfTwo(v.Length)
  {
    hide Value, Binary, Carried, Reverse, BitString, PowerOfTwo;
    printed := Reverse(v[..]);
    ghost var before := v[..];
    ghost var p;
    toggle, p := Ripple(v);
    CountStep(before, v[..], p, v.Length);
  }

  /** Lines 639-660. For positive widths: every bit string of the width, in counting order. */
  method Run(bits: nat) returns (l: seq<string>)
    ensures bits >= 1 ==> |l| == PowerOfTwo(bits) && forall k :: 0 <= k < |l| ==> l[k] == Binary(k, bits)
    ensures bits == 0 ==> l == []
  {
    l := [];
    var v := new char[bits](_ => '0');
    var toggle := new int[bits + 1](i => if i == 0 then 1 else 0);
    StartAtZero(v[..]);
    hide Value, Binary, Reverse, BitString, PowerOfTwo;
    while toggle[bits] != 1
      invariant toggle.Length == bits + 1 && v.Length == bits && BitString(v[..]) && fresh(v) && fresh(toggle)
      invariant bits == 0 ==> toggle[0] == 1 && l == []
      invariant bits >= 1 && toggle[bits] == 1 ==> |l| == PowerOfTwo(bits)
      invariant bits >= 1 && toggle[bits] != 1 ==> Value(Reverse(v[..])) == |l| < PowerOfTwo(bits)
      invariant forall k :: 0 <= k < |l| ==> l[k] == Binary(k, bits)
      decreases PowerOfTwo(bits) - |l|
    {
      var printed;
      printed, toggle := Round(v);
      l := l + [printed];
    }
  }
}
