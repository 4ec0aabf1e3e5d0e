/** Variable-length integers: seven bits a byte, lowest first, the high bit set on all bytes but the last. */
module Varint {
  import opened Unicode

  const U64_END: nat := 0x1_0000_0000_0000_0000

  /** A number moved up by `i` groups of seven bits. */
  function Shift(x: nat, i: nat): nat {
    if i == 0 then x else 0x80 * Shift(x, i - 1)
  }

  /** The number that the payloads of the bytes stand for. */
  function Payload(bytes: seq<Byte>): nat {
    if bytes == [] then 0
    else Payload(bytes[..|bytes| - 1]) + Shift(bytes[|bytes| - 1] % 0x80, |bytes| - 1)
  }

  /** Every byte but the last asks for another one. */
  predicate IsCode(bytes: seq<Byte>) {
    bytes != [] && bytes[|bytes| - 1] < 0x80 && forall i | 0 <= i < |bytes| - 1 :: bytes[i] >= 0x80
  }

  /** A code with no superfluous byte. */
  predicate IsShortest(bytes: seq<Byte>) {
    IsCode(bytes) && (|bytes| > 1 ==> bytes[|bytes| - 1] != 0)
  }

  function Code(value: nat): seq<Byte> {
    if value < 0x80 then [value] else [value % 0x80 + 0x80] + Code(value / 0x80)
  }

  method EncodeVarint(buf: seq<Byte>, value: nat) returns (r: seq<Byte>)
    requires value < U64_END
    ensures r == buf + Code(value)
  {
    var rest := value;
    r := buf;
    while rest >= 0x80
      invariant r + Code(rest) == buf + Code(value)
    {
      var byte := rest % 0x80 + 0x80;
      assert (r + [byte]) + Code(rest / 0x80) == r + ([byte] + Code(rest / 0x80));
      r := r + [byte];
      rest := rest / 0x80;
    }
    r := r + [rest];
  }

  datatype Outcome = Read(value: nat, length: nat) | Unterminated | ShiftOverflow

  /** What decoding a buffer has to find: the first code, or why there is none. */
  ghost predicate Decodes(buf: seq<Byte>, r: Outcome) {
    match r
    case Read(value, length) =>
      length <= |buf| && length <= 10 && IsCode(buf[..length]) && value == Payload(buf[..length]) % U64_END
    case Unterminated => |buf| <= 10 && forall i | 0 <= i < |buf| :: buf[i] >= 0x80
    case ShiftOverflow => |buf| > 10 && forall i | 0 <= i < 10 :: buf[i] >= 0x80
  }

  /** The value is a 64-bit word: payload bits shifted past its top are lost. */
  method DecodeVarint(buf: seq<Byte>) returns (r: Outcome)
    ensures Decodes(buf, r)
  {
    var value, i := 0, 0;
    while i < |buf|
      invariant i <= |buf| && i <= 10
      invariant forall j | 0 <= j < i :: buf[j] >= 0x80
      invariant value == Payload(buf[..i]) % U64_END
    {
      var byte := buf[i];
      if i == 10 { return ShiftOverflow; }
      AddPayload(buf, i);
      value := (value + Shift(byte % 0x80, i) % U64_END) % U64_END;
      i := i + 1;
      if byte < 0x80 {
        return Read(value, i);
      }
    }
    return Unterminated;
  }

  /** Values encoded one after the other. */
  function Codes(values: seq<nat>): seq<Byte> {
    if values == [] then [] else Codes(values[..|values| - 1]) + Code(values[|values| - 1])
  }

  method EncodeList(values: seq<nat>) returns (buf: seq<Byte>)
    requires forall i | 0 <= i < |values| :: values[i] < U64_END
    ensures buf == Codes(values)
  {
    buf := [];
    for i := 0 to |values|
      invariant buf == Codes(values[..i])
    {
      buf := EncodeVarint(buf, values[i]);
      assert values[..i + 1][..i] == values[..i];
    }
    assert values[..|values|] == values;
  }

  /** Decoding until the buffer is used up gives the encoded values back. */
  method DecodeList(buf: seq<Byte>, ghost values: seq<nat>) returns (r: seq<nat>)
    requires buf == Codes(values) && forall i | 0 <= i < |values| :: values[i] < U64_END
    ensures r == values
  {
    hide Code, Payload;
    var pos := 0;
    r := [];
    while pos < |buf|
      invariant pos <= |buf| && |r| <= |values| && r == values[..|r|] && buf[..pos] == Codes(r)
    {
      ghost var rest := NextCode(buf, values, |r|);
      assert buf[pos..] == Code(values[|r|]) + rest;
      var d := DecodeVarint(buf[pos..]);
      CodeDecodes(values[|r|], rest, d);
      assert r + [values[|r|]] == values[..|r| + 1];
      assert (r + [d.value])[..|r|] == r;
      assert buf[..pos + d.length] == buf[..pos] + buf[pos..][..d.length];
      r := r + [d.value];
      pos := pos + d.length;
    }
    CodesGrow(values, |r|);
  }

  /** Where the codes of the first `k` values end, the next one starts. */
  lemma {:induction false} NextCode(buf: seq<Byte>, values: seq<nat>, k: nat) returns (rest: seq<Byte>)
    requires k <= |values| && buf == Codes(values) && |Codes(values[..k])| < |buf|
    ensures k < |values| && buf == Codes(values[..k]) + (Code(values[k]) + rest)
    decreases |values|
  {
    hide Code;
    var n := |values| - 1;
    assert values[..|values|] == values;
    if k == n {
      rest := [];
      assert Code(values[k]) + [] == Code(values[k]);
    } else {
      assert values[..n][..k] == values[..k];
      CodesGrow(values[..n], k);
      CodesGrow(values[..n], k + 1);
      assert values[..n][..k + 1][..k] == values[..k];
      CodeIsNotEmpty(values[k]);
      var shorter := NextCode(Codes(values[..n]), values[..n], k);
      rest := shorter + Code(values[n]);
    }
  }

  lemma CodeIsNotEmpty(value: nat)
    ensures Code(value) != []
  {
  }

  /** Codes take room: only all the values fill the buffer. */
  lemma {:induction false} CodesGrow(values: seq<nat>, k: nat)
    requires k <= |values|
    ensures |Codes(values[..k])| <= |Codes(values)|
    ensures k < |values| ==> |Codes(values[..k])| < |Codes(values)|
  {
    hide Code;
    if k < |values| {
      var before := values[..|values| - 1];
      assert before[..k] == values[..k];
      CodesGrow(before, k);
      CodeIsNotEmpty(values[|values| - 1]);
    } else {
      assert values[..k] == values;
    }
  }

  // Laws.

  /** The code of a value is the shortest one that stands for it. */
  lemma {:induction false} CodeMeaning(value: nat)
    ensures IsShortest(Code(value)) && Payload(Code(value)) == value
  {
    if value < 0x80 {
      assert Payload([value]) == Payload([]) + value;
    } else {
      var byte, rest := value % 0x80 + 0x80, Code(value / 0x80);
      CodeMeaning(value / 0x80);
      PayloadCons(byte, rest);
      assert Code(value) == [byte] + rest;
      if |rest| == 1 { assert rest == [value / 0x80]; }
    }
  }

  lemma {:induction false} PayloadCons(byte: Byte, rest: seq<Byte>)
    ensures Payload([byte] + rest) == byte % 0x80 + 0x80 * Payload(rest)
  {
    var all, n := [byte] + rest, |rest|;
    if rest == [] {
      assert all[..0] == [];
    } else {
      assert all[..n] == [byte] + rest[..n - 1];
      PayloadCons(byte, rest[..n - 1]);
    }
  }

  /** Decoding stops at the end of a code, whatever follows. */
  lemma CodeDecodes(value: nat, rest: seq<Byte>, d: Outcome)
    requires value < U64_END
    ensures Decodes(Code(value) + rest, d) <==> d == Read(value, |Code(value)|)
  {
    CodeMeaning(value);
    CodesAreShort(Code(value));
    hide Code, Payload;
    var n := |Code(value)|;
    assert (Code(value) + rest)[..n] == Code(value);
    if Decodes(Code(value) + rest, d) {
      OneCodeStarts(Code(value) + rest, n, d);
    }
  }

  /** Two codes of the same number are the same, as long as neither has a superfluous byte. */
  lemma ShortestIsUnique(a: seq<Byte>, b: seq<Byte>)
    requires IsShortest(a) && IsShortest(b) && Payload(a) == Payload(b)
    ensures a == b
  {
    hide Payload, Shift;
    ShortestLength(a);
    ShortestLength(b);
    if |a| < |b| { ShiftMonotonic(|a|, |b| - 1); }
    if |b| < |a| { ShiftMonotonic(|b|, |a| - 1); }
    SamePayload(a, b);
    assert forall i | 0 <= i < |a| :: a[i] == b[i];
  }

  /** The length of a shortest code is the number of seven-bit groups of its value, and at least one. */
  lemma ShortestLength(code: seq<Byte>)
    requires IsShortest(code)
    ensures Payload(code) < Shift(1, |code|)
    ensures |code| > 1 ==> Shift(1, |code| - 1) <= Payload(code)
  {
    PayloadBound(code);
    if |code| > 1 {
      ShiftAdds(code[|code| - 1] % 0x80 - 1, 1, |code| - 1);
    }
  }

  /** One byte for each group of seven bits, and ten at most. */
  lemma {:induction false} CodeLength(value: nat)
    ensures value < Shift(1, |Code(value)|) && (|Code(value)| > 1 ==> Shift(1, |Code(value)| - 1) <= value)
    ensures value < U64_END ==> |Code(value)| <= 10
  {
    CodeMeaning(value);
    ShortestLength(Code(value));
    if value < U64_END { CodesAreShort(Code(value)); }
  }

  lemma CodesAreShort(code: seq<Byte>)
    requires IsShortest(code) && Payload(code) < U64_END
    ensures |code| <= 10
  {
    assert Shift(1, 5) == 0x8_0000_0000;
    assert Shift(1, 10) >= U64_END;
    ShortestLength(code);
    if |code| > 10 { ShiftMonotonic(10, |code| - 1); }
  }

  lemma {:induction false} PayloadBound(bytes: seq<Byte>)
    ensures Payload(bytes) < Shift(1, |bytes|)
  {
    if bytes != [] {
      var d, n := bytes[|bytes| - 1] % 0x80, |bytes| - 1;
      PayloadBound(bytes[..n]);
      ShiftAdds(d, 1, n);
      ShiftAdds(d + 1, 0x7F - d, n);
      ShiftInner(1, n);
    }
  }

  lemma {:induction false} ShiftAdds(x: nat, y: nat, i: nat)
    ensures Shift(x + y, i) == Shift(x, i) + Shift(y, i)
  {
    if i > 0 { ShiftAdds(x, y, i - 1); }
  }

  lemma {:induction false} ShiftInner(x: nat, i: nat)
    ensures Shift(x, i + 1) == Shift(0x80 * x, i)
  {
    if i > 0 { ShiftInner(x, i - 1); }
  }

  lemma {:induction false} ShiftMonotonic(m: nat, n: nat)
    requires m <= n
    ensures 1 <= Shift(1, m) <= Shift(1, n)
  {
    if m < n {
      ShiftMonotonic(m, n - 1);
    } else if m > 0 {
      ShiftMonotonic(m - 1, m - 1);
    }
  }

  lemma AddPayload(buf: seq<Byte>, i: nat)
    requires i < |buf|
    ensures Payload(buf[..i + 1]) % U64_END
      == (Payload(buf[..i]) % U64_END + Shift(buf[i] % 0x80, i) % U64_END) % U64_END
  {
    assert buf[..i + 1][..i] == buf[..i];
    SumModulo(Payload(buf[..i]), Shift(buf[i] % 0x80, i));
  }

  lemma SumModulo(a: nat, b: nat)
    ensures (a + b) % U64_END == (a % U64_END + b % U64_END) % U64_END
  {
  }

  /** Digits are determined by the number. */
  lemma {:induction false} SamePayload(a: seq<Byte>, b: seq<Byte>)
    requires |a| == |b| && Payload(a) == Payload(b)
    ensures forall i | 0 <= i < |a| :: a[i] % 0x80 == b[i] % 0x80
  {
    if a != [] {
      var n := |a| - 1;
      PayloadBound(a[..n]);
      PayloadBound(b[..n]);
      var x, y := a[n] % 0x80, b[n] % 0x80;
      if x < y { DigitDecides(x, y, n); }
      if y < x { DigitDecides(y, x, n); }
      SamePayload(a[..n], b[..n]);
      forall i | 0 <= i < |a|
        ensures a[i] % 0x80 == b[i] % 0x80
      {
        if i < n { assert a[..n][i] == a[i] && b[..n][i] == b[i]; }
      }
    }
  }

  lemma DigitDecides(x: nat, y: nat, i: nat)
    requires x < y
    ensures Shift(x, i) + Shift(1, i) <= Shift(y, i)
  {
    ShiftAdds(x, 1, i);
    ShiftAdds(x + 1, y - x - 1, i);
  }

  /** A buffer starts with at most one code. */
  lemma OneCodeStarts(buf: seq<Byte>, n: nat, d: Outcome)
    requires n <= |buf| && n <= 10 && IsCode(buf[..n]) && Decodes(buf, d)
    ensures d == Read(Payload(buf[..n]) % U64_END, n)
  {
    assert buf[..n][n - 1] == buf[n - 1];
    if d.Read? {
      var m := d.length;
      assert buf[..m][m - 1] == buf[m - 1];
      assert forall i | 0 <= i < n - 1 :: buf[..n][i] == buf[i];
      assert forall i | 0 <= i < m - 1 :: buf[..m][i] == buf[i];
    }
  }
}
