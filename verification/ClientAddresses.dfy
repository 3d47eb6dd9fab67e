/** Client addresses made from a running number. */
module ClientAddresses {
  function Decimal(n: nat): (s: string)
    ensures |s| > 0 && forall i :: 0 <= i < |s| ==> '0' <= s[i] <= '9'
  {
    if n < 10 then ['0' + n as char] else Decimal(n / 10) + ['0' + (n % 10) as char]
  }

  /** "255.a.b.c" with a, b and c the number's digits to base 256; a is not bounded. */
  function AddressOf(id: nat): string {
    "255." + (Decimal(id / (256 * 256)) + ("." + (Decimal((id % (256 * 256)) / 256) + ("." + Decimal(id % 256)))))
  }

  /** The digits of the number to base 256, between dots. */
  lemma AddressFormat(a: nat, b: nat, c: nat)
    requires b < 256 && c < 256
    ensures AddressOf((a * 256 + b) * 256 + c) == "255." + Decimal(a) + "." + Decimal(b) + "." + Decimal(c)
  {
    Digits(a, b, c);
    Chain("255.", Decimal(a), ".", Decimal(b), ".", Decimal(c));
  }

  lemma Digits(a: nat, b: nat, c: nat)
    requires b < 256 && c < 256
    ensures var id := (a * 256 + b) * 256 + c;
            id / (256 * 256) == a && (id % (256 * 256)) / 256 == b && id % 256 == c
  {
    var id := (a * 256 + b) * 256 + c;
    LowDigit(id);
    var q, r := id / 65536, id % 65536;
    assert 65536 * a + (b * 256 + c) == 65536 * q + r;
    assert q == a && r == b * 256 + c;
  }

  lemma Chain<T>(a: seq<T>, b: seq<T>, c: seq<T>, d: seq<T>, e: seq<T>, f: seq<T>)
    ensures a + (b + (c + (d + (e + f)))) == a + b + c + d + e + f
  {}

  /** Decimal numbers have their usual digits. */
  lemma DecimalFormat(n: nat)
    ensures n < 10 ==> Decimal(n) == ["0123456789"[n]]
    ensures n >= 10 ==> Decimal(n) == Decimal(n / 10) + ["0123456789"[n % 10]]
  {}

  lemma {:induction false} DecimalInjective(a: nat, b: nat)
    requires Decimal(a) == Decimal(b)
    ensures a == b
  {
    var s, t := Decimal(a), Decimal(b);
    assert s[|s| - 1] == t[|t| - 1];
    if a >= 10 && b >= 10 {
      assert s[..|s| - 1] == Decimal(a / 10) && t[..|t| - 1] == Decimal(b / 10);
      DecimalInjective(a / 10, b / 10);
    }
  }

  lemma FirstDot(p: string, r: string, q: string, s: string)
    requires (forall i :: 0 <= i < |p| ==> p[i] != '.') && (forall i :: 0 <= i < |q| ==> q[i] != '.')
    requires p + ("." + r) == q + ("." + s)
    ensures p == q && r == s
  {
    var left, right := p + ("." + r), q + ("." + s);
    assert left[|p|] == '.' && right[|q|] == '.';
    assert p == left[..|p|] && q == right[..|q|];
    assert r == left[|p| + 1..] && s == right[|q| + 1..];
  }

  lemma SamePrefix(x: string, y: string)
    requires "255." + x == "255." + y
    ensures x == y
  {
    assert ("255." + x)[4..] == x && ("255." + y)[4..] == y;
  }

  /** No two numbers share an address. */
  lemma AddressesDiffer(a: nat, b: nat)
    requires AddressOf(a) == AddressOf(b)
    ensures a == b
  {
    var a1, a2, a3 := a / (256 * 256), (a % (256 * 256)) / 256, a % 256;
    var b1, b2, b3 := b / (256 * 256), (b % (256 * 256)) / 256, b % 256;
    var tailA, tailB := Decimal(a2) + ("." + Decimal(a3)), Decimal(b2) + ("." + Decimal(b3));
    SamePrefix(Decimal(a1) + ("." + tailA), Decimal(b1) + ("." + tailB));
    FirstDot(Decimal(a1), tailA, Decimal(b1), tailB);
    FirstDot(Decimal(a2), Decimal(a3), Decimal(b2), Decimal(b3));
    DecimalInjective(a1, b1);
    DecimalInjective(a2, b2);
    DecimalInjective(a3, b3);
    SameDigits(a, b);
  }

  lemma SameDigits(a: nat, b: nat)
    requires a / (256 * 256) == b / (256 * 256)
    requires (a % (256 * 256)) / 256 == (b % (256 * 256)) / 256 && a % 256 == b % 256
    ensures a == b
  {
    LowDigit(a);
    LowDigit(b);
  }

  lemma LowDigit(n: nat)
    ensures n == (n / 65536) * 65536 + ((n % 65536) / 256) * 256 + n % 256
  {
    var q, r := n / 65536, n % 65536;
    assert n == 65536 * q + r;
    assert n == 256 * (256 * q + r / 256) + r % 256;
  }
}
