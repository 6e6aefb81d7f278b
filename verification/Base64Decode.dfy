/** The decoder of src/lua/dec.c and its round trips with the encoder. */
module Base64Decode {
  import opened Base64
  import opened Options

  // The carry buffer.
  datatype Carry = Carry(b0: bv8, b1: bv8, b2: bv8)
  {
    function Bytes(): seq<bv8> { [b0, b1, b2] }
  }

  // A sextet absorbed at place k of its group.
  function Absorb(buf: Carry, k: nat, x: bv8): Carry
    requires k < 4
  {
    match k
    case 0 => buf.(b0 := x << 2)
    case 1 => buf.(b0 := buf.b0 | (x >> 4), b1 := x << 4)
    case 2 => buf.(b1 := buf.b1 | (x >> 2), b2 := x << 6)
    case 3 => buf.(b2 := buf.b2 | x)
  }

  datatype Outcome = Accepted(out: seq<bv8>) | Refused

  // The decoder's run from position q on.  Places are counted by position in the text,
  // skipped characters included.
  function Scan(s: seq<bv8>, q: nat, buf: Carry, out: seq<bv8>): Outcome
    requires q <= |s|
    decreases |s| - q
  {
    match Look(At(s, q))
    case EndOfText => if q % 4 != 0 then Refused else Accepted(out)
    case Padding =>
      if q % 4 < 2 then Refused
      else if q % 4 == 2 then (if At(s, q + 1) != PAD then Refused else Accepted(out + buf.Bytes()[..1]))
      else Accepted(out + buf.Bytes()[..2])
    case Skip => Scan(s, q + 1, buf, out)
    case Digit(x) =>
      var buf' := Absorb(buf, q % 4, x);
      Scan(s, q + 1, buf', if q % 4 == 3 then out + buf'.Bytes() else out)
  }

  // raw_base64_decode, from whatever the carry buffer holds at first.  On every text it
  // accepts the length it returns is the number of bytes written, and on every text the
  // writes stay within three bytes for each four characters begun.
  method RawDecode(s: seq<bv8>, out: array<bv8>, garbage: Carry) returns (result: nat, err: bool)
    requires 0 !in s && 3 * (|s| / 4 + 1) <= out.Length
    modifies out
    ensures result <= 3 * (|s| / 4 + 1) && out[3 * (|s| / 4 + 1)..] == old(out[3 * (|s| / 4 + 1)..])
    ensures err <==> Scan(s, 0, garbage, []).Refused?
    ensures !err ==> Scan(s, 0, garbage, []) == Accepted(out[..result])
  {
    hide Absorb;
    var p, o, pad, buf := 0, 0, 0, garbage;
    result, err := 0, false;
    while pad == 0
      invariant p <= |s| && !err && 0 <= pad < 3
      invariant pad == 0 ==> o == result <= 3 * (p / 4) && Scan(s, 0, garbage, []) == Scan(s, p, buf, out[..o])
      invariant pad != 0 ==>
                  && p < |s| && o <= 3 * (p / 4) && result == o + 3 - pad
                  && Scan(s, 0, garbage, []) == Accepted(out[..o] + buf.Bytes()[..3 - pad])
      invariant out[3 * (|s| / 4 + 1)..] == old(out[3 * (|s| / 4 + 1)..])
      decreases pad == 0, |s| - p
    {
      match Look(At(s, p))
      case EndOfText =>
        err := p % 4 != 0;
        return;
      case Padding =>
        if p % 4 < 2 {
          err := true;
          return;
        } else if p % 4 == 2 {
          if At(s, p + 1) != PAD {
            err := true;
            return;
          }
          pad, result := 2, result + 1;
        } else {
          pad, result := 1, result + 2;
        }
      case Skip =>
        p := p + 1;
      case Digit(x) =>
        buf := Absorb(buf, p % 4, x);
        if p % 4 == 3 {
          result := result + 3;
          Write(out, o, buf, 3 - pad);
          assert buf.Bytes()[..3] == buf.Bytes();
          o := o + 3;
        }
        p := p + 1;
    }
    Write(out, o, buf, 3 - pad);
  }

  method Write(out: array<bv8>, o: nat, buf: Carry, n: nat)
    requires o + n <= out.Length && n <= 3
    modifies out
    ensures out[..o + n] == old(out[..o]) + buf.Bytes()[..n]
    ensures out[o + n..] == old(out[o + n..])
  {
    for x := 0 to n
      invariant out[..o + x] == old(out[..o]) + buf.Bytes()[..x]
      invariant out[o + n..] == old(out[o + n..])
    {
      out[o + x] := buf.Bytes()[x];
    }
  }

  // spc_base64_decode: a text it accepts comes back in an allocation that is large enough;
  // a text it refuses yields nothing.
  method DecodeText(s: seq<bv8>, garbage: Carry) returns (ob: Option<array<bv8>>, len: nat)
    requires 0 !in s
    ensures match Scan(s, 0, garbage, [])
            case Accepted(x) => ob.Some? && len == |x| <= ob.value.Length && ob.value[..len] == x
            case Refused => ob.None? && len == 0
  {
    var out := new bv8[3 * (|s| / 4 + 1)];
    var err;
    len, err := RawDecode(s, out, garbage);
    ob := Some(out);
    if err {
      len, ob := 0, None;
    }
  }

  // ---------- What is accepted ----------

  // Where decoding stops: the first padding character from q on, or the end.
  function Stop(s: seq<bv8>, q: nat): (e: nat)
    requires q <= |s|
    ensures q <= e <= |s|
    decreases |s| - q
  {
    if q == |s| || s[q] == PAD then q else Stop(s, q + 1)
  }

  // The groups whose last character is a digit, from q up to e.
  function Groups(s: seq<bv8>, q: nat, e: nat): nat
    requires q <= e <= |s|
    decreases e - q
  {
    if q == e then 0 else (if q % 4 == 3 && Look(s[q]).Digit? then 1 else 0) + Groups(s, q + 1, e)
  }

  // A text is accepted exactly if it has a whole number of groups and no padding, or its
  // first padding character ends a group, alone or before another one; whatever characters
  // are skipped.  Three octets come from each group with a last digit, and one or two from
  // the padded one.
  lemma {:induction false} AcceptedExactly(s: seq<bv8>, q: nat, buf: Carry, out: seq<bv8>)
    requires 0 !in s && q <= |s|
    ensures var e, d := Stop(s, q), Scan(s, q, buf, out);
            && (d.Accepted? <==>
                  if e == |s| then e % 4 == 0 else e % 4 == 3 || (e % 4 == 2 && e + 1 < |s| && s[e + 1] == PAD))
            && (d.Accepted? ==>
                  |d.out| == |out| + 3 * Groups(s, q, e) + if e == |s| then 0 else e % 4 - 1)
    decreases |s| - q
  {
    hide Absorb;
    if q < |s| && s[q] != PAD {
      assert s[q] in s;
      var x := Look(s[q]);
      var buf' := if x.Digit? then Absorb(buf, q % 4, x.x) else buf;
      AcceptedExactly(s, q + 1, buf', if x.Digit? && q % 4 == 3 then out + buf'.Bytes() else out);
    }
  }

  // ---------- decode(encode(x)) == x ----------

  lemma CarriedBits(a: bv8, b: bv8, c: bv8)
    ensures ((a >> 2) << 2) | ((((a << 4) | (b >> 4)) & 0x3f) >> 4) == a
    ensures ((((a << 4) | (b >> 4)) & 0x3f) << 4) | ((((b << 2) | (c >> 6)) & 0x3f) >> 2) == b
    ensures ((((b << 2) | (c >> 6)) & 0x3f) << 6) | (c & 0x3f) == c
  {
  }

  // The sextets of three octets, absorbed in turn, are those octets again.
  lemma FirstOctetBack(a: bv8, b: bv8, c: bv8, buf: Carry)
    ensures AbsorbFirst(buf, a, b, c, 2).b0 == a
    ensures AbsorbFirst(buf, a, b, c, 2).b1 == Sextet(a, b, c, 1) << 4
  {
    hide Sextet;
    EncoderBits(a, b, c);
    CarriedBits(a, b, c);
    assert AbsorbFirst(buf, a, b, c, 1).b0 == (a >> 2) << 2;
  }

  lemma SecondOctetBack(a: bv8, b: bv8, c: bv8, buf: Carry)
    ensures AbsorbFirst(buf, a, b, c, 3) == Carry(a, b, Sextet(a, b, c, 2) << 6)
  {
    hide Sextet;
    FirstOctetBack(a, b, c, buf);
    EncoderBits(a, b, c);
    CarriedBits(a, b, c);
  }

  lemma ThirdOctetBack(a: bv8, b: bv8, c: bv8, buf: Carry)
    ensures AbsorbFirst(buf, a, b, c, 4) == Carry(a, b, c)
  {
    hide Sextet;
    SecondOctetBack(a, b, c, buf);
    EncoderBits(a, b, c);
    CarriedBits(a, b, c);
  }

  // The first n characters of an encoded group, absorbed one after the other.
  function AbsorbFirst(buf: Carry, a: bv8, b: bv8, c: bv8, n: nat): Carry
    requires n <= 4
  {
    if n == 0 then buf else Absorb(AbsorbFirst(buf, a, b, c, n - 1), n - 1, Sextet(a, b, c, n - 1))
  }

  lemma {:induction false} ScanGroup(s: seq<bv8>, q: nat, a: bv8, b: bv8, c: bv8, n: nat, buf: Carry, out: seq<bv8>)
    requires q % 4 == 0 && n < 4 && q + n <= |s| && s[q..q + n] == Group(a, b, c)[..n]
    ensures Scan(s, q, buf, out) == Scan(s, q + n, AbsorbFirst(buf, a, b, c, n), out)
  {
    hide Sextet, Absorb, Letter, Group;
    if n > 0 {
      ShorterSlice(s, q, n, Group(a, b, c));
      ScanGroup(s, q, a, b, c, n - 1, buf, out);
      GroupAt(a, b, c, n - 1);
    }
  }

  lemma ShorterSlice(s: seq<bv8>, q: nat, n: nat, t: seq<bv8>)
    requires 0 < n <= |t| && q + n <= |s| && s[q..q + n] == t[..n]
    ensures s[q..q + (n - 1)] == t[..n - 1] && s[q + n - 1] == t[n - 1]
  {
    assert s[q + n - 1] == s[q..q + n][n - 1];
    assert s[q..q + (n - 1)] == s[q..q + n][..n - 1];
  }

  lemma GroupAt(a: bv8, b: bv8, c: bv8, k: nat)
    requires k < 4
    ensures Look(Group(a, b, c)[k]) == Digit(Sextet(a, b, c, k))
  {
    hide Sextet, Letter;
  }

  lemma ScanWholeGroup(s: seq<bv8>, q: nat, a: bv8, b: bv8, c: bv8, buf: Carry, out: seq<bv8>) returns (after: Carry)
    requires q % 4 == 0 && q + 4 <= |s| && s[q..q + 4] == Group(a, b, c)
    ensures Scan(s, q, buf, out) == Scan(s, q + 4, after, out + [a, b, c])
  {
    hide Sextet, Absorb, Letter;
    assert s[q..q + 3] == s[q..q + 4][..3];
    assert s[q + 3] == s[q..q + 4][3];
    ScanGroup(s, q, a, b, c, 3, buf, out);
    after := AbsorbFirst(buf, a, b, c, 4);
    ThirdOctetBack(a, b, c, buf);
  }

  lemma ScanTwoLeft(p: seq<bv8>, a: bv8, b: bv8, buf: Carry, out: seq<bv8>)
    requires |p| % 4 == 0
    ensures Scan(p + Encode([a, b]), |p|, buf, out) == Accepted(out + [a, b])
  {
    hide Sextet, Absorb, Letter;
    ScanGroup(p + Encode([a, b]), |p|, a, b, 0, 3, buf, out);
    SecondOctetBack(a, b, 0, buf);
  }

  lemma ScanOneLeft(p: seq<bv8>, a: bv8, buf: Carry, out: seq<bv8>)
    requires |p| % 4 == 0
    ensures Scan(p + Encode([a]), |p|, buf, out) == Accepted(out + [a])
  {
    hide Sextet, Absorb, Letter;
    ScanGroup(p + Encode([a]), |p|, a, 0, 0, 2, buf, out);
    FirstOctetBack(a, 0, 0, buf);
  }

  lemma {:induction false} DecodesItsEncoding(p: seq<bv8>, x: seq<bv8>, buf: Carry, out: seq<bv8>)
    requires |p| % 4 == 0
    ensures Scan(p + Encode(x), |p|, buf, out) == Accepted(out + x)
    decreases |x|
  {
    hide Group;
    if |x| >= 3 {
      var g := Group(x[0], x[1], x[2]);
      assert p + Encode(x) == (p + g) + Encode(x[3..]) by {
        assert Encode(x) == g + Encode(x[3..]);
      }
      hide *;
      var after := ScanWholeGroup(p + Encode(x), |p|, x[0], x[1], x[2], buf, out);
      DecodesItsEncoding(p + g, x[3..], after, out + [x[0], x[1], x[2]]);
      assert x == [x[0], x[1], x[2]] + x[3..];
      assert out + x == out + [x[0], x[1], x[2]] + x[3..];
    } else if |x| == 2 {
      hide *;
      assert x == [x[0], x[1]];
      ScanTwoLeft(p, x[0], x[1], buf, out);
    } else if |x| == 1 {
      hide *;
      assert x == [x[0]];
      ScanOneLeft(p, x[0], buf, out);
    } else {
      assert p + Encode(x) == p;
      assert out + x == out;
    }
  }

  // Whatever the carry buffer holds at first, decoding an encoding gives back its octets.
  lemma DecodeOfEncode(x: seq<bv8>, garbage: Carry)
    ensures Scan(Encode(x), 0, garbage, []) == Accepted(x)
  {
    DecodesItsEncoding([], x, garbage, []);
    assert [] + Encode(x) == Encode(x);
    assert [] + x == x;
  }

  // ---------- encode(decode(s)) == s ----------

  predicate IsDigit(c: bv8) { Look(c).Digit? }

  function Value(c: bv8): bv8
    requires IsDigit(c)
  {
    Look(c).x
  }

  // A text of whole groups, padded at most at its end and with no stray bits in the last
  // sextet before the padding (section 3.5 of RFC 4648).
  predicate Canonical(s: seq<bv8>) {
    s == [] || (
      && |s| >= 4 && IsDigit(s[0]) && IsDigit(s[1])
      && if |s| == 4 && s[3] == PAD
         then if s[2] == PAD then Value(s[1]) & 15 == 0 else IsDigit(s[2]) && Value(s[2]) & 3 == 0
         else IsDigit(s[2]) && IsDigit(s[3]) && Canonical(s[4..]))
  }

  lemma StrayBits(a: bv8, b: bv8)
    ensures Sextet(a, 0, 0, 1) & 15 == 0 && Sextet(a, b, 0, 2) & 3 == 0
  {
  }

  lemma {:induction false} EncodingsAreCanonical(x: seq<bv8>)
    ensures Canonical(Encode(x))
    decreases |x|
  {
    hide Sextet, Letter;
    if |x| >= 3 {
      EncodingsAreCanonical(x[3..]);
      var s := Encode(x);
      assert s[..4] == Group(x[0], x[1], x[2]);
      assert s[4..] == Encode(x[3..]);
    } else if |x| == 2 {
      StrayBits(x[0], x[1]);
    } else if |x| == 1 {
      StrayBits(x[0], 0);
    }
  }

  // The octets of four sextets.
  function Octets(d0: bv8, d1: bv8, d2: bv8, d3: bv8): (o: seq<bv8>)
    ensures |o| == 3
  {
    [(d0 << 2) | (d1 >> 4), (d1 << 4) | (d2 >> 2), (d2 << 6) | d3]
  }

  lemma SextetsOfOctets(d0: bv8, d1: bv8, d2: bv8, d3: bv8)
    requires d0 < 64 && d1 < 64 && d2 < 64 && d3 < 64
    ensures var o := Octets(d0, d1, d2, d3);
            && Sextet(o[0], o[1], o[2], 0) == d0 && Sextet(o[0], o[1], o[2], 1) == d1
            && Sextet(o[0], o[1], o[2], 2) == d2 && Sextet(o[0], o[1], o[2], 3) == d3
  {
    hide Sextet;
    var o := Octets(d0, d1, d2, d3);
    EncoderBits(o[0], o[1], o[2]);
  }

  lemma SextetsOfOneOctet(d0: bv8, d1: bv8, d2: bv8, d3: bv8)
    requires d0 < 64 && d1 < 64 && d1 & 15 == 0
    ensures var o := Octets(d0, d1, d2, d3);
            Sextet(o[0], 0, 0, 0) == d0 && Sextet(o[0], 0, 0, 1) == d1
  {
    hide Sextet;
    EncoderBits(Octets(d0, d1, d2, d3)[0], 0, 0);
  }

  lemma SextetsOfTwoOctets(d0: bv8, d1: bv8, d2: bv8, d3: bv8)
    requires d0 < 64 && d1 < 64 && d2 < 64 && d2 & 3 == 0
    ensures var o := Octets(d0, d1, d2, d3);
            Sextet(o[0], o[1], 0, 0) == d0 && Sextet(o[0], o[1], 0, 1) == d1 && Sextet(o[0], o[1], 0, 2) == d2
  {
    hide Sextet;
    var o := Octets(d0, d1, d2, d3);
    EncoderBits(o[0], o[1], 0);
  }

  lemma GroupOfDigits(c0: bv8, c1: bv8, c2: bv8, c3: bv8)
    requires IsDigit(c0) && IsDigit(c1) && IsDigit(c2) && IsDigit(c3)
    ensures var o := Octets(Value(c0), Value(c1), Value(c2), Value(c3));
            Group(o[0], o[1], o[2]) == [c0, c1, c2, c3]
  {
    hide Letter, Octets, Sextet, Look;
    SextetsOfOctets(Value(c0), Value(c1), Value(c2), Value(c3));
    LetterOfItsDigit(c0);
    LetterOfItsDigit(c1);
    LetterOfItsDigit(c2);
    LetterOfItsDigit(c3);
  }

  lemma OneOctetOfDigits(c0: bv8, c1: bv8)
    requires IsDigit(c0) && IsDigit(c1) && Value(c1) & 15 == 0
    ensures Encode([Octets(Value(c0), Value(c1), 0, 0)[0]]) == [c0, c1, PAD, PAD]
  {
    hide Letter, Octets, Sextet, Look;
    SextetsOfOneOctet(Value(c0), Value(c1), 0, 0);
    LetterOfItsDigit(c0);
    LetterOfItsDigit(c1);
  }

  lemma TwoOctetsOfDigits(c0: bv8, c1: bv8, c2: bv8)
    requires IsDigit(c0) && IsDigit(c1) && IsDigit(c2) && Value(c2) & 3 == 0
    ensures var o := Octets(Value(c0), Value(c1), Value(c2), 0);
            Encode([o[0], o[1]]) == [c0, c1, c2, PAD]
  {
    hide Letter, Octets, Sextet, Look;
    SextetsOfTwoOctets(Value(c0), Value(c1), Value(c2), 0);
    LetterOfItsDigit(c0);
    LetterOfItsDigit(c1);
    LetterOfItsDigit(c2);
  }

  // The octets of a padded last group.
  lemma PaddedGroup(c0: bv8, c1: bv8, c2: bv8) returns (x: seq<bv8>)
    requires Canonical([c0, c1, c2, PAD])
    ensures Encode(x) == [c0, c1, c2, PAD]
  {
    hide Group, Octets, Look, IsDigit, Value, Encode;
    if c2 == PAD {
      OneOctetOfDigits(c0, c1);
      return [Octets(Value(c0), Value(c1), 0, 0)[0]];
    }
    TwoOctetsOfDigits(c0, c1, c2);
    var o := Octets(Value(c0), Value(c1), Value(c2), 0);
    return [o[0], o[1]];
  }

  // Every canonical text is an encoding.
  lemma {:induction false} CanonicalIsAnEncoding(s: seq<bv8>) returns (x: seq<bv8>)
    requires Canonical(s)
    ensures Encode(x) == s
    decreases |s|
  {
    hide Group, Octets, Look, IsDigit, Value, Encode;
    if s == [] {
      EncodeNothing();
      x := [];
    } else if |s| == 4 && s[3] == PAD {
      assert s == [s[0], s[1], s[2], PAD];
      x := PaddedGroup(s[0], s[1], s[2]);
    } else {
      GroupOfDigits(s[0], s[1], s[2], s[3]);
      var o := Octets(Value(s[0]), Value(s[1]), Value(s[2]), Value(s[3]));
      var rest := CanonicalIsAnEncoding(s[4..]);
      EncodeOneMore(o, rest);
      x := o + rest;
      assert s == [s[0], s[1], s[2], s[3]] + s[4..];
    }
  }

  lemma EncodeOneMore(o: seq<bv8>, rest: seq<bv8>)
    requires |o| == 3
    ensures Encode(o + rest) == Group(o[0], o[1], o[2]) + Encode(rest)
  {
    hide Group;
    assert (o + rest)[3..] == rest;
  }

  // Decoding and encoding again gives the text back exactly if it is canonical.
  lemma EncodeOfDecode(s: seq<bv8>, garbage: Carry)
    ensures var d := Scan(s, 0, garbage, []);
            d.Accepted? && Encode(d.out) == s <==> Canonical(s)
  {
    var d := Scan(s, 0, garbage, []);
    if Canonical(s) {
      var x := CanonicalIsAnEncoding(s);
      DecodeOfEncode(x, garbage);
    }
    if d.Accepted? {
      EncodingsAreCanonical(d.out);
    }
  }
}
