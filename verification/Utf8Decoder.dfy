/**
  The UTF-8 decoder that the audio worklet falls back to when the browser gives its scope no
  TextDecoder (src/denoise/denoiser.ts).

  `Decode` is the decoding loop. `Units` is its specification: what the loop emits, with `None`
  for each replacement character. The reference it is compared with is RFC 3629, written here
  without looking at the decoder: the octet table of section 3 (`Encode`) and the grammar of
  section 4 (`Utf8Char`, `WellFormed`).
 */
module Utf8Decoder {
  import opened Wrappers

  type Byte = b: int | 0 <= b < 256

  /** A Unicode scalar value: a code point that is not a surrogate. */
  type Scalar = v: int | 0 <= v < 0xD800 || 0xE000 <= v < 0x110000

  const REPLACEMENT: Scalar := 0xFFFD

  /** A decoded scalar value, or `None` where the loop writes the replacement character. */
  type Unit = Option<Scalar>

  // ---------------------------------------------------------------------------
  // RFC 3629
  // ---------------------------------------------------------------------------

  /** Section 3 of RFC 3629: the octets of one scalar value. */
  function Encode(v: Scalar): (s: seq<Byte>)
    ensures 1 <= |s| <= 4
  {
    if v < 0x80 then [v]
    else if v < 0x800 then [0xC0 + v / 0x40, 0x80 + v % 0x40]
    else if v < 0x10000 then [0xE0 + v / 0x1000, 0x80 + v / 0x40 % 0x40, 0x80 + v % 0x40]
    else [0xF0 + v / 0x40000, 0x80 + v / 0x1000 % 0x40, 0x80 + v / 0x40 % 0x40, 0x80 + v % 0x40]
  }

  function EncodeAll(vs: seq<Scalar>): seq<Byte> {
    if vs == [] then [] else Encode(vs[0]) + EncodeAll(vs[1..])
  }

  predicate Tail(b: Byte) { 0x80 <= b <= 0xBF }

  /** The rule `UTF8-char` of section 4 of RFC 3629. */
  predicate Utf8Char(s: seq<Byte>) {
    || (|s| == 1 && s[0] <= 0x7F)
    || (|s| == 2 && 0xC2 <= s[0] <= 0xDF && Tail(s[1]))
    || (|s| == 3 && Tail(s[2]) &&
        (|| (s[0] == 0xE0 && 0xA0 <= s[1] <= 0xBF)
         || (0xE1 <= s[0] <= 0xEC && Tail(s[1]))
         || (s[0] == 0xED && 0x80 <= s[1] <= 0x9F)
         || (0xEE <= s[0] <= 0xEF && Tail(s[1]))))
    || (|s| == 4 && Tail(s[2]) && Tail(s[3]) &&
        (|| (s[0] == 0xF0 && 0x90 <= s[1] <= 0xBF)
         || (0xF1 <= s[0] <= 0xF3 && Tail(s[1]))
         || (s[0] == 0xF4 && 0x80 <= s[1] <= 0x8F)))
  }

  /** The rule `UTF8-octets = *( UTF8-char )` of section 4 of RFC 3629. */
  ghost predicate WellFormed(s: seq<Byte>)
    decreases |s|
  {
    s == [] || exists k | 1 <= k <= |s| :: Utf8Char(s[..k]) && WellFormed(s[k..])
  }

  // ---------------------------------------------------------------------------
  // The decoder's specification
  // ---------------------------------------------------------------------------

  /** What the first byte of a sequence says: payload bits and how many bytes follow. */
  datatype Lead = Lead(bits: nat, length: nat) | BadLead

  function Classify(first: Byte): Lead {
    if first < 0x80 then Lead(first, 0)
    else if first / 0x20 == 0x06 then Lead(first % 0x20, 1)
    else if first / 0x10 == 0x0E then Lead(first % 0x10, 2)
    else if first / 0x08 == 0x1E then Lead(first % 0x08, 3)
    else BadLead
  }

  function Accumulate(bits: nat, rest: seq<Byte>): nat {
    if rest == [] then bits
    else Accumulate(bits, rest[..|rest| - 1]) * 0x40 + rest[|rest| - 1] % 0x40
  }

  predicate AllContinuation(rest: seq<Byte>) {
    forall k | 0 <= k < |rest| :: rest[k] / 0x40 == 2
  }

  /** The test the loop makes before it accepts a code point of `length` following bytes. */
  predicate Rejected(valid: bool, length: nat, codePoint: nat) {
    || !valid
    || (length == 1 && codePoint < 0x80)
    || (length == 2 && codePoint < 0x800)
    || (length == 3 && codePoint < 0x10000)
    || codePoint > 0x10FFFF
    || 0xD800 <= codePoint <= 0xDFFF
  }

  /** One pass of the outer loop: what it emits and how many bytes it uses up. */
  function Next(s: seq<Byte>): (r: (Unit, nat))
    requires s != []
    ensures 1 <= r.1 <= |s|
  {
    match Classify(s[0])
    case BadLead => (None, 1)
    case Lead(bits, length) =>
      if 1 + length > |s| then (None, |s|)
      else
        var rest := s[1..1 + length];
        var codePoint := Accumulate(bits, rest);
        if Rejected(AllContinuation(rest), length, codePoint) then (None, 1 + length)
        else (Some(codePoint), 1 + length)
  }

  function Units(s: seq<Byte>): (us: seq<Unit>) {
    if s == [] then [] else [Next(s).0] + Units(s[Next(s).1..])
  }

  function TextOf(us: seq<Unit>): seq<Scalar> {
    if us == [] then [] else [us[0].GetOr(REPLACEMENT)] + TextOf(us[1..])
  }

  function Decoded(s: seq<Byte>): seq<Scalar> { TextOf(Units(s)) }

  // ---------------------------------------------------------------------------
  // The loop
  // ---------------------------------------------------------------------------

  lemma {:induction false} TextAppends(us: seq<Unit>, ws: seq<Unit>)
    ensures TextOf(us + ws) == TextOf(us) + TextOf(ws)
  {
    if us == [] {
      assert us + ws == ws;
    } else {
      assert (us + ws)[1..] == us[1..] + ws;
      TextAppends(us[1..], ws);
    }
  }

  /** The loop has written `text` for the bytes before `i`; what is left still has to be decoded. */
  ghost predicate InStep(input: seq<Byte>, i: nat, text: seq<Scalar>) {
    i <= |input| && Decoded(input) == text + Decoded(input[i..])
  }

  lemma EmitOne(input: seq<Byte>, i: nat, text: seq<Scalar>)
    requires i < |input| && InStep(input, i, text)
    ensures var (u, used) := Next(input[i..]);
            InStep(input, i + used, text + [u.GetOr(REPLACEMENT)])
  {
    hide Next;
    var (u, used) := Next(input[i..]);
    assert input[i..][used..] == input[i + used..];
    assert Units(input[i..]) == [u] + Units(input[i + used..]);
    assert TextOf(Units(input[i..])) == [u.GetOr(REPLACEMENT)] + Decoded(input[i + used..]);
  }

  lemma Started(input: seq<Byte>)
    ensures InStep(input, 0, [])
  {
    assert input[0..] == input;
  }

  lemma Classified(first: Byte)
    ensures Classify(first) ==
            if first < 0x80 then Lead(first, 0)
            else if first / 0x20 == 0x06 then Lead(first % 0x20, 1)
            else if first / 0x10 == 0x0E then Lead(first % 0x10, 2)
            else if first / 0x08 == 0x1E then Lead(first % 0x08, 3)
            else BadLead
  {
  }

  lemma AcceptedIsScalar(valid: bool, length: nat, codePoint: nat)
    ensures !Rejected(valid, length, codePoint) ==> codePoint < 0xD800 || 0xE000 <= codePoint < 0x110000
  {
  }

  lemma Finished(input: seq<Byte>, text: seq<Scalar>)
    requires InStep(input, |input|, text)
    ensures text == Decoded(input)
  {
  }

  /** Reading one more following byte. */
  lemma ReadOne(bits: nat, rest: seq<Byte>, next: Byte)
    ensures Accumulate(bits, rest + [next]) == Accumulate(bits, rest) * 0x40 + next % 0x40
    ensures AllContinuation(rest + [next]) <==> AllContinuation(rest) && next / 0x40 == 2
  {
    assert (rest + [next])[..|rest|] == rest;
    assert AllContinuation(rest + [next]) ==> forall k | 0 <= k < |rest| :: (rest + [next])[k] == rest[k];
    assert (rest + [next])[|rest|] == next;
  }

  lemma EmitReplacement(input: seq<Byte>, i: nat, text: seq<Scalar>)
    requires i < |input| && InStep(input, i, text)
    ensures Classify(input[i]).BadLead? ==> InStep(input, i + 1, text + [REPLACEMENT])
    ensures Classify(input[i]).Lead? && i + 1 + Classify(input[i]).length > |input|
            ==> InStep(input, |input|, text + [REPLACEMENT])
  {
    EmitOne(input, i, text);
    hide InStep, Accumulate;
  }

  lemma EmitRead(input: seq<Byte>, i: nat, text: seq<Scalar>, length: nat, bits: nat)
    requires 0 < i && i + length <= |input| && InStep(input, i - 1, text)
    requires Classify(input[i - 1]) == Lead(bits, length)
    ensures var codePoint := Accumulate(bits, input[i..i + length]);
            if Rejected(AllContinuation(input[i..i + length]), length, codePoint)
            then InStep(input, i + length, text + [REPLACEMENT])
            else InStep(input, i + length, text + [codePoint])
  {
    EmitOne(input, i - 1, text);
    hide InStep, Accumulate;
    assert input[i - 1..][1..1 + length] == input[i..i + length];
  }

  /** The inner loop: folds the `length` bytes from `i` on into the code point. */
  method ReadFollowing(input: seq<Byte>, i: nat, length: nat, bits: nat) returns (codePoint: nat, valid: bool)
    requires i + length <= |input|
    ensures codePoint == Accumulate(bits, input[i..i + length])
    ensures valid == AllContinuation(input[i..i + length])
  {
    codePoint, valid := bits, true;
    for j := 0 to length
      invariant codePoint == Accumulate(bits, input[i..i + j])
      invariant valid == AllContinuation(input[i..i + j])
    {
      var next := input[i + j];
      ReadOne(bits, input[i..i + j], next);
      assert input[i..i + j + 1] == input[i..i + j] + [next];
      if next / 0x40 != 2 {
        valid := false;
      }
      codePoint := codePoint * 0x40 + next % 0x40;
    }
  }

  /** The decoding loop. Every index it reads is in range, and it stops. */
  method Decode(input: seq<Byte>) returns (text: seq<Scalar>)
    ensures text == Decoded(input)
    ensures WellFormed(input) ==> EncodeAll(text) == input
    ensures |text| <= |input|
  {
    text := [];
    var i := 0;
    Started(input);
    hide *;
    while i < |input|
      invariant InStep(input, i, text) && i <= |input|
    {
      EmitReplacement(input, i, text);
      var first := input[i];
      i := i + 1;
      var codePoint: nat;
      var length := 0;
      if first < 0x80 {
        codePoint := first;
      } else if first / 0x20 == 0x06 {
        codePoint := first % 0x20;
        length := 1;
      } else if first / 0x10 == 0x0E {
        codePoint := first % 0x10;
        length := 2;
      } else if first / 0x08 == 0x1E {
        codePoint := first % 0x08;
        length := 3;
      } else {
        Classified(first);
        text := text + [REPLACEMENT];
        continue;
      }
      assert Classify(first) == Lead(codePoint, length) by { Classified(first); }
      if i + length > |input| {
        text := text + [REPLACEMENT];
        break;
      }
      EmitRead(input, i, text, length, codePoint);
      var valid;
      codePoint, valid := ReadFollowing(input, i, length, codePoint);
      i := i + length;
      AcceptedIsScalar(valid, length, codePoint);
      if Rejected(valid, length, codePoint) {
        text := text + [REPLACEMENT];
      } else {
        text := text + [codePoint];
      }
    }
    Finished(input, text);
    Exact(input);
    OutputIsNoLonger(input);
  }

  /** The masks that classify a byte are the divisions of `Classify` and `AllContinuation`. */
  lemma MasksAreDivisions(b: bv8)
    ensures b & 0xE0 == 0xC0 <==> b / 0x20 == 0x06
    ensures b & 0xF0 == 0xE0 <==> b / 0x10 == 0x0E
    ensures b & 0xF8 == 0xF0 <==> b / 0x08 == 0x1E
    ensures b & 0xC0 == 0x80 <==> b / 0x40 == 0x02
  {
  }

  /** The masks that keep a byte's payload are its remainders. */
  lemma PayloadMasksAreRemainders(b: bv8)
    ensures b & 0x1F == b % 0x20
    ensures b & 0x0F == b % 0x10
    ensures b & 0x07 == b % 0x08
    ensures b & 0x3F == b % 0x40
  {
  }

  /** Shifting the code point and adding six bits is the step of `Accumulate`; it never overflows. */
  lemma ShiftIsMultiplication(codePoint: bv32, next: bv32)
    requires codePoint < 0x8000 && next < 0x100
    ensures (codePoint << 6) | (next & 0x3F) == codePoint * 0x40 + next % 0x40
  {
  }

  /** The classification as the source writes it, with masks. */
  function ClassifyByMasks(first: bv8): Lead {
    if first < 0x80 then Lead(first as int, 0)
    else if first & 0xE0 == 0xC0 then Lead((first & 0x1F) as int, 1)
    else if first & 0xF0 == 0xE0 then Lead((first & 0x0F) as int, 2)
    else if first & 0xF8 == 0xF0 then Lead((first & 0x07) as int, 3)
    else BadLead
  }

  lemma ByteAsNumber(b: bv8)
    ensures (b / 0x20) as int == b as int / 0x20 && (b % 0x20) as int == b as int % 0x20
    ensures (b / 0x10) as int == b as int / 0x10 && (b % 0x10) as int == b as int % 0x10
    ensures (b / 0x08) as int == b as int / 0x08 && (b % 0x08) as int == b as int % 0x08
  {
  }

  /** Both classifications agree on every byte. */
  lemma ClassifyIsByMasks(first: bv8)
    ensures ClassifyByMasks(first) == Classify(first as int)
  {
    MasksAreDivisions(first);
    PayloadMasksAreRemainders(first);
    ByteAsNumber(first);
  }

  /** Before each shift the code point is small enough for the shift to be the multiplication. */
  lemma CodePointFits(first: Byte, rest: seq<Byte>)
    requires Classify(first).Lead? && |rest| < Classify(first).length
    ensures Accumulate(Classify(first).bits, rest) < 0x8000
  {
    AccumulateUpTo3(Classify(first).bits, rest);
  }

  // ---------------------------------------------------------------------------
  // One code point
  // ---------------------------------------------------------------------------

  lemma Accumulate1(bits: nat, a: Byte)
    ensures Accumulate(bits, [a]) == bits * 0x40 + a % 0x40
  {
    assert [a][..0] == [];
  }

  lemma Accumulate2(bits: nat, a: Byte, b: Byte)
    ensures Accumulate(bits, [a, b]) == (bits * 0x40 + a % 0x40) * 0x40 + b % 0x40
  {
    assert [a, b][..1] == [a];
    Accumulate1(bits, a);
  }

  lemma Accumulate3(bits: nat, a: Byte, b: Byte, c: Byte)
    ensures Accumulate(bits, [a, b, c]) == ((bits * 0x40 + a % 0x40) * 0x40 + b % 0x40) * 0x40 + c % 0x40
  {
    assert [a, b, c][..2] == [a, b];
    Accumulate2(bits, a, b);
  }

  /** The number the loop has built after `rest`, spelled out for each length it can have. */
  lemma AccumulateUpTo3(bits: nat, rest: seq<Byte>)
    requires |rest| <= 3
    ensures |rest| == 0 ==> Accumulate(bits, rest) == bits
    ensures |rest| == 1 ==> Accumulate(bits, rest) == bits * 0x40 + rest[0] % 0x40
    ensures |rest| == 2 ==> Accumulate(bits, rest) == (bits * 0x40 + rest[0] % 0x40) * 0x40 + rest[1] % 0x40
    ensures |rest| == 3 ==> Accumulate(bits, rest)
                            == ((bits * 0x40 + rest[0] % 0x40) * 0x40 + rest[1] % 0x40) * 0x40 + rest[2] % 0x40
  {
    if |rest| == 1 {
      assert rest == [rest[0]];
      Accumulate1(bits, rest[0]);
    } else if |rest| == 2 {
      assert rest == [rest[0], rest[1]];
      Accumulate2(bits, rest[0], rest[1]);
    } else if |rest| == 3 {
      assert rest == [rest[0], rest[1], rest[2]];
      Accumulate3(bits, rest[0], rest[1], rest[2]);
    }
  }

  /** Base-64 digits are unique: reading them back from the number they make. */
  lemma Digits(a: nat, b: nat, c: nat, d: nat)
    requires b < 0x40 && c < 0x40 && d < 0x40
    ensures var v := ((a * 0x40 + b) * 0x40 + c) * 0x40 + d;
            v / 0x40 == (a * 0x40 + b) * 0x40 + c && v % 0x40 == d &&
            v / 0x1000 == a * 0x40 + b && v / 0x40 % 0x40 == c &&
            v / 0x40000 == a && v / 0x1000 % 0x40 == b
  {
    var v := ((a * 0x40 + b) * 0x40 + c) * 0x40 + d;
    var w := (a * 0x40 + b) * 0x40 + c;
    assert v / 0x40 == w;
    assert w / 0x40 == a * 0x40 + b;
    assert v / 0x1000 == v / 0x40 / 0x40;
    assert v / 0x40000 == v / 0x1000 / 0x40;
  }

  /** The number made of a value's own base-64 digits is that value. */
  lemma DigitsOf(v: nat)
    ensures ((v / 0x40000 * 0x40 + v / 0x1000 % 0x40) * 0x40 + v / 0x40 % 0x40) * 0x40 + v % 0x40 == v
    ensures (v / 0x1000 * 0x40 + v / 0x40 % 0x40) * 0x40 + v % 0x40 == v
    ensures v / 0x40 * 0x40 + v % 0x40 == v
  {
    assert v / 0x1000 == v / 0x40 / 0x40;
    assert v / 0x40000 == v / 0x1000 / 0x40;
  }

  lemma EncodingLead(v: Scalar)
    ensures var e := Encode(v);
            Classify(e[0]) == Lead(if |e| == 1 then v else if |e| == 2 then v / 0x40
                                   else if |e| == 3 then v / 0x1000 else v / 0x40000, |e| - 1)
    ensures AllContinuation(Encode(v)[1..])
  {
  }

  lemma EncodingAccumulates(v: Scalar)
    ensures Accumulate(Classify(Encode(v)[0]).bits, Encode(v)[1..]) == v
  {
    var e := Encode(v);
    EncodingLead(v);
    AccumulateUpTo3(Classify(e[0]).bits, e[1..]);
    DigitsOf(v);
    if |e| == 2 {
      assert e[1..][0] % 0x40 == v % 0x40;
    } else if |e| == 3 {
      assert e[1..][0] % 0x40 == v / 0x40 % 0x40;
      assert e[1..][1] % 0x40 == v % 0x40;
    } else if |e| == 4 {
      assert e[1..][0] % 0x40 == v / 0x1000 % 0x40;
      assert e[1..][1] % 0x40 == v / 0x40 % 0x40;
      assert e[1..][2] % 0x40 == v % 0x40;
    }
  }

  /** The loop accepts what the encoder wrote, whatever follows it, and stops exactly behind it. */
  lemma NextOfEncoding(v: Scalar, r: seq<Byte>)
    ensures Next(Encode(v) + r) == (Some(v), |Encode(v)|)
  {
    var e := Encode(v);
    var s := e + r;
    EncodingLead(v);
    EncodingAccumulates(v);
    assert s[0] == e[0];
    assert s[1..1 + (|e| - 1)] == e[1..];
  }

  lemma Respell1(a: Byte, b: Byte)
    requires a / 0x20 == 0x06 && b / 0x40 == 2
    requires var v := a % 0x20 * 0x40 + b % 0x40; !Rejected(true, 1, v)
    ensures Encode(a % 0x20 * 0x40 + b % 0x40) == [a, b]
  {
    Digits(0, 0, a % 0x20, b % 0x40);
  }

  lemma Respell2(a: Byte, b: Byte, c: Byte)
    requires a / 0x10 == 0x0E && b / 0x40 == 2 && c / 0x40 == 2
    requires var v := (a % 0x10 * 0x40 + b % 0x40) * 0x40 + c % 0x40; !Rejected(true, 2, v)
    ensures Encode((a % 0x10 * 0x40 + b % 0x40) * 0x40 + c % 0x40) == [a, b, c]
  {
    Digits(0, a % 0x10, b % 0x40, c % 0x40);
  }

  lemma Respell3(a: Byte, b: Byte, c: Byte, d: Byte)
    requires a / 0x08 == 0x1E && b / 0x40 == 2 && c / 0x40 == 2 && d / 0x40 == 2
    requires var v := ((a % 0x08 * 0x40 + b % 0x40) * 0x40 + c % 0x40) * 0x40 + d % 0x40; !Rejected(true, 3, v)
    ensures Encode(((a % 0x08 * 0x40 + b % 0x40) * 0x40 + c % 0x40) * 0x40 + d % 0x40) == [a, b, c, d]
  {
    Digits(a % 0x08, b % 0x40, c % 0x40, d % 0x40);
  }

  /** The loop accepts nothing else: an accepted code point was spelled by exactly the bytes used. */
  lemma AcceptedIsEncoding(s: seq<Byte>)
    requires s != [] && Next(s).0.Some?
    ensures Encode(Next(s).0.value) == s[..Next(s).1]
  {
    var Lead(bits, length) := Classify(s[0]);
    var rest := s[1..1 + length];
    AccumulateUpTo3(bits, rest);
    assert s[..1 + length] == [s[0]] + rest;
    hide Accumulate;
    if length == 1 {
      Respell1(s[0], rest[0]);
      assert rest == [rest[0]];
    } else if length == 2 {
      Respell2(s[0], rest[0], rest[1]);
      assert rest == [rest[0], rest[1]];
    } else if length == 3 {
      Respell3(s[0], rest[0], rest[1], rest[2]);
      assert rest == [rest[0], rest[1], rest[2]];
    }
  }

  /** The grammar's characters are the images of the encoder. */
  lemma EncodingIsChar(v: Scalar)
    ensures Utf8Char(Encode(v))
  {
  }

  /** Each character of the grammar passes every test of the loop. */
  lemma CharIsAccepted(s: seq<Byte>)
    requires Utf8Char(s)
    ensures Next(s).0.Some? && Next(s).1 == |s|
  {
    var Lead(bits, length) := Classify(s[0]);
    assert length == |s| - 1;
    var rest := s[1..1 + length];
    AccumulateUpTo3(bits, rest);
    assert forall k | 0 <= k < length :: rest[k] == s[1 + k];
    if length == 1 {
      assert Tail(rest[0]);
    } else if length == 2 {
      assert Tail(rest[1]) && rest[0] / 0x40 == 2;
    } else if length == 3 {
      assert Tail(rest[1]) && Tail(rest[2]) && rest[0] / 0x40 == 2;
    }
  }

  lemma CharIsEncoding(s: seq<Byte>) returns (v: Scalar)
    requires Utf8Char(s)
    ensures Encode(v) == s
  {
    hide Encode, Next;
    CharIsAccepted(s);
    AcceptedIsEncoding(s);
    v := Next(s).0.value;
    assert s[..|s|] == s;
  }

  // ---------------------------------------------------------------------------
  // Whole inputs
  // ---------------------------------------------------------------------------

  function Accepted(vs: seq<Scalar>): seq<Unit> {
    if vs == [] then [] else [Some(vs[0])] + Accepted(vs[1..])
  }

  lemma {:induction false} TextOfAccepted(vs: seq<Scalar>)
    ensures TextOf(Accepted(vs)) == vs
    ensures None !in Accepted(vs)
  {
    if vs != [] {
      TextOfAccepted(vs[1..]);
    }
  }

  lemma {:induction false} EncodedUnits(vs: seq<Scalar>, r: seq<Byte>)
    ensures Units(EncodeAll(vs) + r) == Accepted(vs) + Units(r)
  {
    hide Encode, Next;
    if vs == [] {
      assert EncodeAll(vs) + r == r;
    } else {
      var tail := EncodeAll(vs[1..]) + r;
      var s := Encode(vs[0]) + tail;
      assert EncodeAll(vs) == Encode(vs[0]) + EncodeAll(vs[1..]) && Accepted(vs) == [Some(vs[0])] + Accepted(vs[1..]);
      hide *;
      assert EncodeAll(vs) + r == s;
      EncodedUnits(vs[1..], r);
      NextOfEncoding(vs[0], tail);
      UnitsStep(s, tail, |Encode(vs[0])|);
      assert [Some(vs[0])] + (Accepted(vs[1..]) + Units(r)) == Accepted(vs) + Units(r);
    }
  }

  lemma UnitsStep(s: seq<Byte>, tail: seq<Byte>, used: nat)
    requires s != [] && Next(s).1 == used && s[used..] == tail
    ensures Units(s) == [Next(s).0] + Units(tail)
  {
  }

  /**
    Round trip and resynchronisation: text that was encoded in front of any other bytes decodes
    to itself, and leaves the decoder exactly where it would be on those bytes alone.
   */
  lemma RoundTrip(vs: seq<Scalar>, r: seq<Byte>)
    ensures Decoded(EncodeAll(vs) + r) == vs + Decoded(r)
  {
    hide EncodeAll, Units;
    EncodedUnits(vs, r);
    TextAppends(Accepted(vs), Units(r));
    TextOfAccepted(vs);
  }

  /** A decoding that took no replacement branch re-encodes to the bytes that went in. */
  lemma {:induction false} CleanReencodes(s: seq<Byte>)
    requires None !in Units(s)
    ensures EncodeAll(Decoded(s)) == s
    ensures WellFormed(s)
    decreases |s|
  {
    hide Encode, Next, Utf8Char;
    if s != [] {
      var (u, used) := Next(s);
      var rest := s[used..];
      assert Units(s) == [u] + Units(rest);
      assert u in Units(s);
      forall k | 0 <= k < |Units(rest)| ensures Units(rest)[k] != None {
        assert Units(s)[1 + k] == Units(rest)[k];
      }
      CleanReencodes(rest);
      AcceptedIsEncoding(s);
      assert Decoded(s) == [u.value] + Decoded(rest);
      assert Decoded(s)[1..] == Decoded(rest);
      assert s == s[..used] + rest;
      EncodingIsChar(u.value);
      assert Utf8Char(s[..used]) && WellFormed(s[used..]);
    }
  }

  lemma {:induction false} WellFormedIsEncoding(s: seq<Byte>) returns (vs: seq<Scalar>)
    requires WellFormed(s)
    ensures EncodeAll(vs) == s
    decreases |s|
  {
    hide Encode, Utf8Char;
    if s == [] {
      vs := [];
    } else {
      var k :| 1 <= k <= |s| && Utf8Char(s[..k]) && WellFormed(s[k..]);
      var v := CharIsEncoding(s[..k]);
      var rest := WellFormedIsEncoding(s[k..]);
      vs := [v] + rest;
      assert vs[1..] == rest;
      assert s == s[..k] + s[k..];
    }
  }

  lemma WellFormedIsClean(s: seq<Byte>)
    requires WellFormed(s)
    ensures None !in Units(s)
  {
    var vs := WellFormedIsEncoding(s);
    hide Units, EncodeAll, WellFormed;
    EncodedUnits(vs, []);
    TextOfAccepted(vs);
    assert EncodeAll(vs) + [] == s;
    UnitsOfEmpty();
    assert Units(s) == Accepted(vs);
  }

  lemma UnitsOfEmpty()
    ensures Units([]) == [] && Decoded([]) == []
  {
  }

  /**
    Exactness: the decoder takes no replacement branch if and only if the input is well-formed
    UTF-8, and then encoding its output gives the input back.
   */
  lemma Exact(s: seq<Byte>)
    ensures None !in Units(s) <==> WellFormed(s)
    ensures WellFormed(s) ==> EncodeAll(Decoded(s)) == s
  {
    hide *;
    if WellFormed(s) {
      WellFormedIsClean(s);
    }
    if None !in Units(s) {
      CleanReencodes(s);
    }
  }

  /** How many bytes the first byte of a sequence claims; a byte that begins none claims itself. */
  function Claimed(first: Byte): nat {
    if first < 0xC0 || first >= 0xF8 then 1 else if first < 0xE0 then 2 else if first < 0xF0 then 3 else 4
  }

  lemma AcceptedIsChar(s: seq<Byte>)
    requires s != [] && Next(s).0.Some?
    ensures Utf8Char(s[..Next(s).1])
  {
    AcceptedIsEncoding(s);
    EncodingIsChar(Next(s).0.value);
    hide Next, Encode, Utf8Char;
  }

  /**
    Where no character of the grammar begins, the decoder writes U+FFFD once and goes on behind the
    bytes that the first byte claims, or at the end of the input.
   */
  lemma MalformedSkips(s: seq<Byte>)
    requires s != [] && forall k | 1 <= k <= |s| :: !Utf8Char(s[..k])
    ensures Decoded(s) == [0xFFFD] + Decoded(if Claimed(s[0]) <= |s| then s[Claimed(s[0])..] else [])
  {
    var (u, used) := Next(s);
    if u.Some? {
      AcceptedIsChar(s);
    }
    assert used == if Claimed(s[0]) <= |s| then Claimed(s[0]) else |s|;
    assert Units(s) == [u] + Units(s[used..]);
    hide Next, Utf8Char, Encode, Claimed, Units;
    assert ([u] + Units(s[used..]))[1..] == Units(s[used..]);
  }

  /** Malformed input leaves a mark in the text. */
  lemma {:induction false} MalformedIsMarked(s: seq<Byte>)
    requires !WellFormed(s)
    ensures 0xFFFD in Decoded(s)
  {
    Exact(s);
    hide WellFormed;
    var k :| 0 <= k < |Units(s)| && Units(s)[k] == None;
    hide Units;
    MarkOf(Units(s), k);
  }

  lemma {:induction false} MarkOf(us: seq<Unit>, k: nat)
    requires k < |us| && us[k] == None
    ensures 0xFFFD in TextOf(us)
  {
    if k > 0 {
      MarkOf(us[1..], k - 1);
    }
  }

  /** At most one scalar value comes out for each byte that went in. */
  lemma {:induction false} OutputIsNoLonger(s: seq<Byte>)
    ensures |Decoded(s)| <= |s|
    decreases |s|
  {
    if s != [] {
      OutputIsNoLonger(s[Next(s).1..]);
    }
  }

  /** Two texts with the same encoding are equal: a well-formed input has one reading. */
  lemma EncodingIsInjective(vs: seq<Scalar>, ws: seq<Scalar>)
    requires EncodeAll(vs) == EncodeAll(ws)
    ensures vs == ws
  {
    RoundTrip(vs, []);
    RoundTrip(ws, []);
    UnitsOfEmpty();
    assert vs + [] == vs && ws + [] == ws;
  }
}
