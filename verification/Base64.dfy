/** Base 64 as of section 4 of RFC 4648, in the two loops of src/lua/enc.c and src/lua/dec.c. */
module Base64 {
  const PAD: bv8 := 61

  // ---------- The alphabet ----------

  // The sextet-to-character table.
  function Letter(x: bv8): (c: bv8)
    requires x < 64
    ensures Look(c) == Digit(x)
  {
    if x < 26 then x + 65 else if x < 52 then x + 71 else if x < 62 then x - 4 else if x == 62 then 43 else 47
  }

  // What the decoder's table says of a character.
  datatype Meaning = EndOfText | Padding | Skip | Digit(x: bv8)

  function Look(c: bv8): (m: Meaning)
    ensures m.Digit? ==> m.x < 64
  {
    if c == 0 then EndOfText
    else if c == 43 then Digit(62)
    else if c == 47 then Digit(63)
    else if 48 <= c <= 57 then Digit(c + 4)
    else if c == PAD then Padding
    else if 65 <= c <= 90 then Digit(c - 65)
    else if 97 <= c <= 122 then Digit(c - 71)
    else Skip
  }

  lemma LetterOfItsDigit(c: bv8)
    requires Look(c).Digit?
    ensures Letter(Look(c).x) == c
  {
  }

  // ---------- The encoding, as the standard has it ----------

  // Sextet k, from the left, of the 24 bits of three octets.
  function Sextet(a: bv8, b: bv8, c: bv8, k: nat): (x: bv8)
    requires k < 4
    ensures x < 64
  {
    var group: bv24 := ((a as bv24) << 16) | ((b as bv24) << 8) | (c as bv24);
    ((group >> (18 - 6 * k)) & 63) as bv8
  }

  function Group(a: bv8, b: bv8, c: bv8): (s: seq<bv8>)
    ensures |s| == 4
  {
    [Letter(Sextet(a, b, c, 0)), Letter(Sextet(a, b, c, 1)), Letter(Sextet(a, b, c, 2)), Letter(Sextet(a, b, c, 3))]
  }

  function Encode(x: seq<bv8>): (s: seq<bv8>)
    ensures |s| == 4 * ((|x| + 2) / 3)
  {
    if x == [] then []
    else if |x| == 1 then Group(x[0], 0, 0)[..2] + [PAD, PAD]
    else if |x| == 2 then Group(x[0], x[1], 0)[..3] + [PAD]
    else Group(x[0], x[1], x[2]) + Encode(x[3..])
  }

  lemma {:induction false} EncodeConcat(a: seq<bv8>, b: seq<bv8>)
    requires |a| % 3 == 0
    ensures Encode(a + b) == Encode(a) + Encode(b)
    decreases |a|
  {
    hide Group;
    if a == [] {
      assert a + b == b;
    } else {
      EncodeConcat(a[3..], b);
      assert (a + b)[3..] == a[3..] + b;
    }
  }

  // The encoder's shifts and masks give the sextets of a whole group ...
  lemma EncoderBits(a: bv8, b: bv8, c: bv8)
    ensures Sextet(a, b, c, 0) == a >> 2
    ensures Sextet(a, b, c, 1) == ((a << 4) | (b >> 4)) & 0x3f
    ensures Sextet(a, b, c, 2) == ((b << 2) | (c >> 6)) & 0x3f
    ensures Sextet(a, b, c, 3) == c & 0x3f
  {
  }

  // The four characters the encoder writes for a group.
  function First(a: bv8): bv8 { Letter(a >> 2) }
  function Second(a: bv8, b: bv8): bv8 { Letter(((a << 4) | (b >> 4)) & 0x3f) }
  function Third(b: bv8, c: bv8): bv8 { Letter(((b << 2) | (c >> 6)) & 0x3f) }
  function ThirdAndLast(b: bv8): bv8 { Letter((b << 2) & 0x3f) }
  function Fourth(c: bv8): bv8 { Letter(c & 0x3f) }

  lemma WholeGroup(a: bv8, b: bv8, c: bv8)
    ensures Encode([a, b, c]) == [First(a), Second(a, b), Third(b, c), Fourth(c)]
  {
    hide Letter, Sextet;
    EncoderBits(a, b, c);
  }

  lemma WholeGroupOf(x: seq<bv8>, i: nat)
    requires i + 3 <= |x|
    ensures Encode(x[i..i + 3]) == [First(x[i]), Second(x[i], x[i + 1]), Third(x[i + 1], x[i + 2]), Fourth(x[i + 2])]
  {
    hide Encode, First, Second, Third, Fourth;
    WholeGroup(x[i], x[i + 1], x[i + 2]);
    assert x[i..i + 3] == [x[i], x[i + 1], x[i + 2]];
  }

  // ... and of the one or two octets left over.
  lemma OneLeft(a: bv8)
    ensures Encode([a]) == [First(a), Second(a, 0), PAD, PAD]
  {
    hide Letter, Sextet;
    EncoderBits(a, 0, 0);
  }

  lemma TwoLeft(a: bv8, b: bv8)
    ensures Encode([a, b]) == [First(a), Second(a, b), ThirdAndLast(b), PAD]
  {
    hide Letter, Sextet;
    EncoderBits(a, b, 0);
    assert (b << 2) | (0 >> 6) == b << 2;
  }

  // A byte of the input; one past its end is the terminating NUL.
  function At(s: seq<bv8>, i: nat): bv8
    requires i <= |s|
  {
    if i < |s| then s[i] else 0
  }

  // Four characters written through the output pointer.
  method Put(output: array<bv8>, p: nat, c0: bv8, c1: bv8, c2: bv8, c3: bv8)
    requires p + 4 <= output.Length
    modifies output
    ensures output[..p + 4] == old(output[..p]) + [c0, c1, c2, c3]
    ensures output[p + 4..] == old(output[p + 4..])
  {
    output[p], output[p + 1], output[p + 2], output[p + 3] := c0, c1, c2, c3;
  }

  // spc_base64_encode: the output fills its allocation exactly, with its terminating NUL.
  method EncodeText(input: seq<bv8>) returns (output: array<bv8>)
    ensures fresh(output) && output[..] == Encode(input) + [0]
  {
    hide First, Second, Third, ThirdAndLast, Fourth, Encode;
    var len := |input|;
    var i, mod := 0, len % 3;
    var size := (len / 3 + if mod != 0 then 1 else 0) * 4 + 1;
    assert 3 * (size - 1) == 4 * (len - mod) + if mod != 0 then 12 else 0;
    output := new bv8[size](_ => 0);
    var p := 0;
    EncodeNothing();
    while i < len - mod
      invariant 0 <= i <= len - mod && i % 3 == 0 && 3 * p == 4 * i
      invariant output[..p] == Encode(input[..i])
      invariant fresh(output) && output.Length == size
    {
      Put(output, p, First(input[i]), Second(input[i], input[i + 1]), Third(input[i + 1], input[i + 2]),
          Fourth(input[i + 2]));
      EncodeFurther(input, i, i + 3);
      WholeGroupOf(input, i);
      p, i := p + 4, i + 3;
    }
    p := EncodeRest(input, i, output, p);
    output[p] := 0;
  }

  // The group of spc_base64_encode that is not whole, if there is one.
  method EncodeRest(input: seq<bv8>, i: nat, output: array<bv8>, from: nat) returns (p: nat)
    requires i % 3 == 0 && i <= |input| < i + 3
    requires output.Length == from + (if i < |input| then 5 else 1) && output[..from] == Encode(input[..i])
    modifies output
    ensures p == output.Length - 1 && output[..p] == Encode(input)
  {
    hide First, Second, Third, ThirdAndLast, Fourth, Encode;
    p := from;
    EncodeFurther(input, i, |input|);
    assert input[..|input|] == input;
    if |input| == i {
      EncodeNothing();
    } else if |input| == i + 1 {
      OneLeft(input[i]);
      assert input[i..] == [input[i]];
      Put(output, p, First(input[i]), Second(input[i], At(input, i + 1)), PAD, PAD);
      p := p + 4;
    } else {
      TwoLeft(input[i], input[i + 1]);
      assert input[i..] == [input[i], input[i + 1]];
      Put(output, p, First(input[i]), Second(input[i], input[i + 1]), ThirdAndLast(input[i + 1]), PAD);
      p := p + 4;
    }
  }

  lemma EncodeNothing()
    ensures Encode([]) == []
  {
  }

  lemma EncodeFurther(x: seq<bv8>, i: nat, j: nat)
    requires i <= j <= |x| && i % 3 == 0
    ensures Encode(x[..j]) == Encode(x[..i]) + Encode(x[i..j])
  {
    hide Encode;
    EncodeConcat(x[..i], x[i..j]);
    assert x[..j] == x[..i] + x[i..j];
  }
}
