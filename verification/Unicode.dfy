/** What a text is on the wire: the UTF-8 form (section 3 of RFC 3629) of Unicode characters, and no other bytes. */
module Unicode {
  import opened Bytes
  import opened Addresses

  /** A code point that is not half of a surrogate pair. */
  type Scalar = c: int | (0 <= c < 0xD800) || (0xE000 <= c < 0x11_0000)

  function CharBytes(c: Scalar): (b: seq<Byte>)
    ensures b != []
  {
    if c < 0x80 then [c]
    else if c < 0x800 then [0xC0 + c / 64, 0x80 + c % 64]
    else if c < 0x1_0000 then [0xE0 + c / 64 / 64, 0x80 + c / 64 % 64, 0x80 + c % 64]
    else [0xF0 + c / 64 / 64 / 64, 0x80 + c / 64 / 64 % 64, 0x80 + c / 64 % 64, 0x80 + c % 64]
  }

  function TextBytes(cs: seq<Scalar>): seq<Byte> {
    if cs == [] then [] else CharBytes(cs[0]) + TextBytes(cs[1..])
  }

  lemma CharIsFirst(c: Scalar, rest: seq<Byte>)
    ensures FirstCharacter(CharBytes(c) + rest) == |CharBytes(c)|
  {
    var b := CharBytes(c) + rest;
    if c < 0x80 {
      assert b[0] == c;
    } else if c < 0x800 {
      assert b[0] == 0xC0 + c / 64 && b[1] == 0x80 + c % 64;
    } else if c < 0x1_0000 {
      assert b[0] == 0xE0 + c / 64 / 64 && b[1] == 0x80 + c / 64 % 64 && b[2] == 0x80 + c % 64;
    } else {
      assert b[0] == 0xF0 + c / 64 / 64 / 64 && b[1] == 0x80 + c / 64 / 64 % 64;
      assert b[2] == 0x80 + c / 64 % 64 && b[3] == 0x80 + c % 64;
    }
  }

  /** A number one digit to base 64 longer. */
  function Longer(q: nat, r: nat): (c: nat)
    requires r < 64
    ensures c / 64 == q && c % 64 == r
  {
    q * 64 + r
  }

  /** The character at the front. */
  lemma FirstIsChar(b: seq<Byte>) returns (c: Scalar)
    requires FirstCharacter(b) > 0
    ensures CharBytes(c) == b[..FirstCharacter(b)]
  {
    var n := FirstCharacter(b);
    if n == 1 {
      c := b[0];
    } else if n == 2 {
      c := TwoByteChar(b);
    } else if n == 3 {
      c := ThreeByteChar(b);
    } else {
      c := FourByteChar(b);
    }
  }

  lemma TwoByteChar(b: seq<Byte>) returns (c: Scalar)
    requires FirstCharacter(b) == 2
    ensures CharBytes(c) == b[..2]
  {
    c := Longer(b[0] - 0xC0, b[1] - 0x80);
  }

  lemma ThreeByteChar(b: seq<Byte>) returns (c: Scalar)
    requires FirstCharacter(b) == 3
    ensures CharBytes(c) == b[..3]
  {
    var d := Longer(b[0] - 0xE0, b[1] - 0x80);
    c := Longer(d, b[2] - 0x80);
  }

  lemma FourByteChar(b: seq<Byte>) returns (c: Scalar)
    requires FirstCharacter(b) == 4
    ensures CharBytes(c) == b[..4]
  {
    var d := Longer(b[0] - 0xF0, b[1] - 0x80);
    var e := Longer(d, b[2] - 0x80);
    c := Longer(e, b[3] - 0x80);
  }

  lemma {:induction false} TextIsValid(cs: seq<Scalar>)
    ensures ValidUtf8(TextBytes(cs))
  {
    if cs != [] {
      var head, tail := CharBytes(cs[0]), TextBytes(cs[1..]);
      CharIsFirst(cs[0], tail);
      TextIsValid(cs[1..]);
      assert (head + tail)[|head|..] == tail;
    }
  }

  lemma OneMoreChar(c: Scalar, rest: seq<Scalar>, b: seq<Byte>, n: nat)
    requires n <= |b| && CharBytes(c) == b[..n] && TextBytes(rest) == b[n..]
    ensures TextBytes([c] + rest) == b
  {
    assert ([c] + rest)[1..] == rest;
    assert b == b[..n] + b[n..];
  }

  lemma {:induction false} ValidIsText(b: seq<Byte>) returns (cs: seq<Scalar>)
    requires ValidUtf8(b)
    ensures TextBytes(cs) == b
    decreases |b|
  {
    if b == [] {
      cs := [];
    } else {
      var n := FirstCharacter(b);
      var c := FirstIsChar(b);
      var rest := ValidIsText(b[n..]);
      cs := [c] + rest;
      OneMoreChar(c, rest, b, n);
    }
  }

  /** Exactly the UTF-8 forms are accepted as texts. */
  lemma ValidExactly(b: seq<Byte>)
    ensures ValidUtf8(b) <==> exists cs: seq<Scalar> :: TextBytes(cs) == b
  {
    if ValidUtf8(b) {
      var cs := ValidIsText(b);
    }
    if cs: seq<Scalar> :| TextBytes(cs) == b {
      TextIsValid(cs);
    }
  }

  lemma {:induction false} TextsDiffer(cs: seq<Scalar>, ds: seq<Scalar>)
    requires TextBytes(cs) == TextBytes(ds)
    ensures cs == ds
  {
    if cs != [] && ds != [] {
      CharIsFirst(cs[0], TextBytes(cs[1..]));
      CharIsFirst(ds[0], TextBytes(ds[1..]));
      SameFront(CharBytes(cs[0]), TextBytes(cs[1..]), CharBytes(ds[0]), TextBytes(ds[1..]));
      CharsDiffer(cs[0], ds[0]);
      TextsDiffer(cs[1..], ds[1..]);
    }
  }

  lemma SameFront(a: seq<Byte>, x: seq<Byte>, b: seq<Byte>, y: seq<Byte>)
    requires a + x == b + y && |a| == |b|
    ensures a == b && x == y
  {
    assert a == (a + x)[..|a|] && b == (b + y)[..|b|] && x == (a + x)[|a|..] && y == (b + y)[|b|..];
  }

  lemma CharsDiffer(c: Scalar, d: Scalar)
    requires CharBytes(c) == CharBytes(d)
    ensures c == d
  {
    var b, e := CharBytes(c), CharBytes(d);
    assert |b| == |e| && b[0] == e[0] && (|b| > 1 ==> b[1] == e[1]);
    assert (|b| > 2 ==> b[2] == e[2]) && (|b| > 3 ==> b[3] == e[3]);
    SameDigits(c, d);
    SameDigits(c / 64, d / 64);
    SameDigits(c / 64 / 64, d / 64 / 64);
  }

  lemma SameDigits(c: nat, d: nat)
    ensures c / 64 == d / 64 && c % 64 == d % 64 ==> c == d
  {}
}
