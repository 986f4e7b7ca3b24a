/** `c32encode`: hex digits regrouped into base-32 digits, with one '0' per leading zero byte. */
module C32 {
  import opened Positional

  const ALPHABET := "0123456789ABCDEFGHJKMNPQRSTVWXYZ"

  // ---- The regrouping loop ---------------------------------------------------------

  /** `data.toString('hex')`, as digit values. */
  function Nibbles(data: seq<Byte>): (ns: seq<int>)
    ensures |ns| == 2 * |data| && Digits(16, ns)
  {
    if data == [] then [] else
    var last := data[|data| - 1];
    Nibbles(data[..|data| - 1]) + [last / 16, last % 16]
  }

  lemma {:induction false} NibblesKeepValue(data: seq<Byte>)
    ensures Value(16, Nibbles(data)) == Value(256, data)
  {
    if data != [] {
      var low, last := data[..|data| - 1], data[|data| - 1];
      NibblesKeepValue(low);
      var ns := Nibbles(low);
      assert ns + [last / 16, last % 16] == ns + [last / 16] + [last % 16];
      ValueAppend(16, ns + [last / 16], last % 16);
      ValueAppend(16, ns, last / 16);
    }
  }

  /** 1 << c. */
  function Shift(c: nat): nat
    requires c <= 4
  {
    if c == 0 then 1 else if c == 1 then 2 else if c == 2 then 4 else if c == 3 then 8 else 16
  }

  lemma {:induction false} PowAdd(b: nat, m: nat, n: nat)
    ensures Pow(b, m + n) == Pow(b, m) * Pow(b, n)
  {
    if m > 0 {
      PowAdd(b, m - 1, n);
      assert b * (Pow(b, m - 1) * Pow(b, n)) == b * Pow(b, m - 1) * Pow(b, n);
    }
  }

  lemma {:induction false} PowOfPow(b: nat, m: nat, n: nat)
    ensures Pow(Pow(b, m), n) == Pow(b, m * n)
  {
    if n > 0 {
      PowOfPow(b, m, n - 1);
      PowAdd(b, m, m * (n - 1));
      assert m + m * (n - 1) == m * n;
    }
  }

  /** k nibbles and c further bits fill exactly the digits written so far. */
  lemma BitsBalance(digits: nat, k: nat, c: nat)
    requires c <= 4 && 5 * digits == 4 * k + c
    ensures Pow(32, digits) == Pow(16, k) * Shift(c)
  {
    assert Pow(2, 5) == 32 && Pow(2, 4) == 16;
    PowOfPow(2, 5, digits);
    PowOfPow(2, 4, k);
    PowAdd(2, 4 * k, c);
    assert Pow(2, c) == Shift(c);
  }

  /** The digit written from nibble `cur`, whose low c bits are used up, and c + 1 bits of `next`. */
  function DigitAt(cur: int, next: int, c: nat): (d: int)
    requires 0 <= cur < 16 && 0 <= next < 16 && c <= 3
    ensures 0 <= d < 32
  {
    cur / Shift(c) + next % Shift(c + 1) * Shift(4 - c)
  }

  /** Writing that digit accounts for the rest of `cur` and the borrowed bits of `next`. */
  lemma DigitWeight(cur: int, next: int, c: nat, p: int)
    requires 0 <= cur < 16 && 0 <= next < 16 && c <= 3
    ensures DigitAt(cur, next, c) * (p * Shift(c)) + cur % Shift(c) * p == cur * p + next % Shift(c + 1) * (16 * p)
  {
    var q, m, t := cur / Shift(c), cur % Shift(c), next % Shift(c + 1);
    assert cur == q * Shift(c) + m && DigitAt(cur, next, c) == q + t * Shift(4 - c);
    hide DigitAt, Shift;
    Distribute(q, m, t, p, c);
  }

  lemma Distribute(q: int, m: int, t: int, p: int, c: nat)
    requires c <= 3
    ensures (q + t * Shift(4 - c)) * (p * Shift(c)) + m * p == (q * Shift(c) + m) * p + t * (16 * p)
  {
    if c == 0 {
    } else if c == 1 {
    } else if c == 2 {
    } else {
    }
  }

  /** The loop invariant: what has been written is the value of the nibbles read, plus the
      bits already borrowed from the next one. */
  ghost predicate Regrouped(ns: seq<int>, i: int, carry: nat, ds: seq<int>) {
    && Digits(16, ns) && -1 <= i < |ns| && carry <= 4 && Digits(32, ds)
    && 5 * |ds| == 4 * (|ns| - 1 - i) + carry
    && Value(32, ds) == Value(16, ns[i + 1..]) + (if i >= 0 then ns[i] % Shift(carry) else 0) * Pow(16, |ns| - 1 - i)
  }

  lemma RegroupStep(ns: seq<int>, i: nat, carry: nat, ds: seq<int>)
    requires Regrouped(ns, i, carry, ds)
    ensures carry == 4 ==> Regrouped(ns, i - 1, 0, ds)
    ensures carry < 4 ==>
              Regrouped(ns, i - 1, carry + 1, [DigitAt(ns[i], if i != 0 then ns[i - 1] else 0, carry)] + ds)
  {
    var k := |ns| - 1 - i;
    assert ns[i..] == [ns[i]] + ns[i + 1..];
    ValuePrepend(16, ns[i], ns[i + 1..]);
    assert Value(16, ns[i..]) == ns[i] * Pow(16, k) + Value(16, ns[i + 1..]);
    if carry < 4 {
      var next := if i != 0 then ns[i - 1] else 0;
      var d := DigitAt(ns[i], next, carry);
      ValuePrepend(32, d, ds);
      BitsBalance(|ds|, k, carry);
      DigitWeight(ns[i], next, carry, Pow(16, k));
      assert Pow(16, k + 1) == 16 * Pow(16, k);
    }
  }

  lemma RegroupStart(ns: seq<int>)
    requires Digits(16, ns)
    ensures Regrouped(ns, |ns| - 1, 0, [])
  {
    assert ns[|ns|..] == [];
  }

  lemma RegroupEnd(ns: seq<int>, carry: nat, ds: seq<int>)
    requires Regrouped(ns, -1, carry, ds)
    ensures Value(32, ds) == Value(16, ns)
  {
    assert ns[0..] == ns;
  }

  // ---- Text ------------------------------------------------------------------------

  function Text(ds: seq<int>): (s: string)
    requires Digits(32, ds)
    ensures |s| == |ds|
  {
    seq(|ds|, i requires 0 <= i < |ds| => ALPHABET[ds[i]])
  }

  /** What the encoding is: one '0' per leading zero byte, then the shortest base-32 digits. */
  function Encoding(data: seq<Byte>): (ds: seq<int>)
    ensures Digits(32, ds)
  {
    ValueNonNegative(256, data);
    Zeros(LeadingZeros(data)) + MinDigits(32, Value(256, data))
  }

  lemma StrippedDigits(ds: seq<int>, data: seq<Byte>)
    requires Digits(32, ds) && Value(32, ds) == Value(256, data)
    ensures Zeros(LeadingZeros(data)) + ds[LeadingZeros(ds)..] == Encoding(data)
  {
    var rest := ds[LeadingZeros(ds)..];
    LeadingZerosWeighNothing(32, ds, LeadingZeros(ds));
    assert rest != [] ==> rest[0] == ds[LeadingZeros(ds)];
    MinDigitsOfValue(32, rest);
  }

  method Regroup(inputHex: seq<int>) returns (res: seq<int>)
    requires Digits(16, inputHex)
    ensures Digits(32, res) && Value(32, res) == Value(16, inputHex)
  {
    hide Value, Pow;
    res := [];
    var carry := 0;
    RegroupStart(inputHex);
    var i := |inputHex| - 1;
    while i >= 0
      invariant Regrouped(inputHex, i, carry, res)
    {
      RegroupStep(inputHex, i, carry, res);
      if carry < 4 {
        var currentCode := inputHex[i] / Shift(carry);
        var nextCode := 0;
        if i != 0 {
          nextCode := inputHex[i - 1];
        }
        var nextBits := 1 + carry;
        var nextLowBits := nextCode % Shift(nextBits) * Shift(5 - nextBits);
        res := [currentCode + nextLowBits] + res;
        carry := nextBits;
      } else {
        carry := 0;
      }
      i := i - 1;
    }
    RegroupEnd(inputHex, carry, res);
  }

  /** `c32encode`. The leading zero bytes are the leading NUL characters of the decoded text. */
  method C32Encode(data: seq<Byte>) returns (s: string)
    ensures s == Text(Encoding(data))
  {
    hide Value, MinDigits;
    var res := Regroup(Nibbles(data));
    NibblesKeepValue(data);
    var leadingZeros := 0;
    while leadingZeros < |res| && res[leadingZeros] == 0
      invariant leadingZeros <= LeadingZeros(res)
    {
      leadingZeros := leadingZeros + 1;
    }
    StrippedDigits(res, data);
    res := res[leadingZeros..];

    var zeroBytes := LeadingZeros(data);
    ghost var stripped := res;
    for n := 0 to zeroBytes
      invariant res == Zeros(n) + stripped
    {
      res := [0] + res;
    }
    s := Text(res);
  }

  // ---- Decoding --------------------------------------------------------------------

  function DigitOf(c: char): int {
    if '0' <= c <= '9' then c as int - '0' as int
    else if 'A' <= c <= 'H' then c as int - 'A' as int + 10
    else if 'J' <= c <= 'K' then c as int - 'J' as int + 18
    else if 'M' <= c <= 'N' then c as int - 'M' as int + 20
    else if 'P' <= c <= 'T' then c as int - 'P' as int + 22
    else if 'V' <= c <= 'Z' then c as int - 'V' as int + 27
    else 0
  }

  lemma DigitOfChar(d: int)
    requires 0 <= d < 32
    ensures DigitOf(ALPHABET[d]) == d
  {
  }

  function DigitsOf(s: string): (ds: seq<int>)
    ensures Digits(32, ds)
  {
    seq(|s|, i requires 0 <= i < |s| => DigitOf(s[i]))
  }

  lemma DigitsOfText(ds: seq<int>)
    requires Digits(32, ds)
    ensures DigitsOf(Text(ds)) == ds
  {
    forall i | 0 <= i < |ds| ensures DigitOf(ALPHABET[ds[i]]) == ds[i] {
      DigitOfChar(ds[i]);
    }
  }

  function Bytes(ds: seq<int>): seq<Byte>
    requires Digits(256, ds)
  {
    seq(|ds|, i requires 0 <= i < |ds| => ds[i])
  }

  /** One zero byte per leading '0', then the shortest bytes of the number that follows. */
  function C32Decode(s: string): seq<Byte> {
    var ds := DigitsOf(s);
    var z := LeadingZeros(ds);
    ValueNonNegative(32, ds[z..]);
    Bytes(Zeros(z) + MinDigits(256, Value(32, ds[z..])))
  }

  lemma {:induction false} LeadingZerosOf(z: nat, ds: seq<int>)
    requires ds == [] || ds[0] != 0
    ensures LeadingZeros(Zeros(z) + ds) == z
  {
    if z > 0 {
      assert (Zeros(z) + ds)[1..] == Zeros(z - 1) + ds;
      LeadingZerosOf(z - 1, ds);
    }
  }

  /** Decoding undoes encoding, for every byte string. */
  lemma DecodeEncode(data: seq<Byte>)
    ensures C32Decode(Text(Encoding(data))) == data
  {
    hide Value, MinDigits, LeadingZeros;
    ValueNonNegative(256, data);
    var z, v := LeadingZeros(data), Value(256, data);
    DigitsOfText(Encoding(data));
    LeadingZerosOf(z, MinDigits(32, v));
    assert Encoding(data)[z..] == MinDigits(32, v);
    ValueOfMinDigits(32, v);
    LeadingZerosWeighNothing(256, data, z);
    MinDigitsOfValue(256, data[z..]);
    assert Zeros(z) + data[z..] == data;
  }

  /** Different byte strings have different encodings. */
  lemma EncodeInjective(x: seq<Byte>, y: seq<Byte>)
    requires Text(Encoding(x)) == Text(Encoding(y))
    ensures x == y
  {
    DecodeEncode(x);
    DecodeEncode(y);
  }
}
