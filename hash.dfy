/** The demonstration password digest of both identity stores: a 32-bit
    multiply-by-31 fold over the character codes of the password (taken
    here as Unicode scalar values, which agree with JavaScript's UTF-16
    code units inside the Basic Multilingual Plane), whose
    magnitude is rendered in base 36 (primary store) or base 10 (backup
    store) after the prefix "hash_". */
module PasswordHash {

  const TWO31: int := 0x8000_0000
  const TWO32: int := 0x1_0000_0000

  /** JavaScript's ToInt32: wrap an integer into [-2^31, 2^31). */
  function ToInt32(x: int): (r: int)
    ensures -TWO31 <= r < TWO31
    ensures -TWO31 <= x < TWO31 ==> r == x
  {
    (x + TWO31) % TWO32 - TWO31
  }

  /** Adding a multiple of 2^32 does not change the wrapped value. */
  lemma ToInt32Shift(x: int, k: int)
    ensures ToInt32(x + k * TWO32) == ToInt32(x)
  {
    var a := x + TWO31;
    var q, r := a / TWO32, a % TWO32;
    assert a == q * TWO32 + r && 0 <= r < TWO32;
    assert a + k * TWO32 == (q + k) * TWO32 + r;
    DivModUnique(a + k * TWO32, q + k, r);
  }

  lemma DivModUnique(a: int, q: int, r: int)
    requires 0 <= r < TWO32 && a == q * TWO32 + r
    ensures a % TWO32 == r
  {
  }

  /** Wrapping inside the multiply-add is the same as wrapping after it. */
  lemma WrapInsideStep(x: int, c: int)
    ensures ToInt32(31 * ToInt32(x) + c) == ToInt32(31 * x + c)
  {
    var q := (x + TWO31) / TWO32;
    assert ToInt32(x) == x - q * TWO32;
    assert 31 * ToInt32(x) + c == (31 * x + c) + (-31 * q) * TWO32;
    ToInt32Shift(31 * x + c, -31 * q);
  }

  /** The loop body as the source writes it, `((h << 5) - h) + code` followed
      by `h & h`, is the wrapped `31 * h + code`. */
  lemma ShiftFormIsTimes31(h: int, code: int)
    requires -TWO31 <= h < TWO31
    ensures ToInt32(ToInt32(h * 32) - h + code) == ToInt32(31 * h + code)
  {
    var q := (h * 32 + TWO31) / TWO32;
    assert ToInt32(h * 32) == h * 32 - q * TWO32;
    assert ToInt32(h * 32) - h + code == (31 * h + code) + (-q) * TWO32;
    ToInt32Shift(31 * h + code, -q);
  }

  /** The code `charCodeAt` reports for a character of the Basic
      Multilingual Plane: its scalar value. */
  function CodeOf(c: char): int
  {
    c as int
  }

  /** The fold, one wrapped step per character, left to right. */
  function HashFold(s: string): (h: int)
    ensures -TWO31 <= h < TWO31
  {
    if s == [] then 0 else ToInt32(31 * HashFold(s[..|s| - 1]) + CodeOf(s[|s| - 1]))
  }

  /** Reference definition: the exact polynomial sum of c_i * 31^(n-1-i). */
  function Poly(s: string): int
  {
    if s == [] then 0 else 31 * Poly(s[..|s| - 1]) + CodeOf(s[|s| - 1])
  }

  /** The step-wise wrapped fold equals the exact polynomial wrapped once. */
  lemma {:induction false} HashFoldIsWrappedPoly(s: string)
    ensures HashFold(s) == ToInt32(Poly(s))
  {
    if s != [] {
      var p := s[..|s| - 1];
      HashFoldIsWrappedPoly(p);
      WrapInsideStep(Poly(p), CodeOf(s[|s| - 1]));
    }
  }

  /** The accumulator loop of `hashPassword`. */
  method FoldCodes(password: string) returns (h: int)
    ensures h == HashFold(password)
    ensures -TWO31 <= h < TWO31
  {
    h := 0;
    var i := 0;
    while i < |password|
      invariant 0 <= i <= |password|
      invariant h == HashFold(password[..i])
    {
      var code := CodeOf(password[i]);
      ShiftFormIsTimes31(h, code);
      assert password[..i + 1][..i] == password[..i];
      h := ToInt32(ToInt32(h * 32) - h + code);
      i := i + 1;
    }
    assert password[..|password|] == password;
  }

  function Abs(x: int): nat
  {
    if x < 0 then -x else x
  }

  function DigitChar(d: nat): char
    requires d < 36
  {
    if d < 10 then '0' + (d as char) else 'a' + ((d - 10) as char)
  }

  predicate IsDigitChar(c: char, base: nat)
  {
    ('0' <= c <= '9' && (c - '0') as int < base) || ('a' <= c <= 'z' && (c - 'a') as int + 10 < base)
  }

  function DigitValue(c: char): nat
  {
    if '0' <= c <= '9' then (c - '0') as nat
    else if 'a' <= c <= 'z' then (c - 'a') as nat + 10
    else 0
  }

  lemma DigitCharOk(d: nat, base: nat)
    requires d < base <= 36
    ensures IsDigitChar(DigitChar(d), base) && DigitValue(DigitChar(d)) == d
  {
  }

  lemma DivModBase(n: nat, base: nat)
    requires 2 <= base <= n
    ensures 0 < n / base < n && 0 <= n % base < base && n == (n / base) * base + n % base
  {
  }

  /** `Number.prototype.toString(base)` for a non-negative integer. */
  function ToBase(n: nat, base: nat): (s: string)
    requires 2 <= base <= 36
    ensures |s| >= 1
    decreases n
  {
    if n < base then [DigitChar(n)]
    else DivModBase(n, base); ToBase(n / base, base) + [DigitChar(n % base)]
  }

  /** Reading digits back: the inverse of ToBase. */
  function FromBase(s: string, base: nat): nat
  {
    if s == [] then 0 else FromBase(s[..|s| - 1], base) * base + DigitValue(s[|s| - 1])
  }

  lemma {:induction false} ToBaseDigits(n: nat, base: nat)
    requires 2 <= base <= 36
    ensures forall i :: 0 <= i < |ToBase(n, base)| ==> IsDigitChar(ToBase(n, base)[i], base)
    decreases n
  {
    if n < base {
      DigitCharOk(n, base);
    } else {
      DivModBase(n, base);
      DigitCharOk(n % base, base);
      ToBaseDigits(n / base, base);
    }
  }

  /** Rendering then reading back gives the number: the rendering is injective. */
  lemma {:induction false} FromToBase(n: nat, base: nat)
    requires 2 <= base <= 36
    ensures FromBase(ToBase(n, base), base) == n
    decreases n
  {
    var s := ToBase(n, base);
    if n < base {
      DigitCharOk(n, base);
      assert s[..0] == [];
    } else {
      DivModBase(n, base);
      DigitCharOk(n % base, base);
      FromToBase(n / base, base);
      assert s[..|s| - 1] == ToBase(n / base, base);
    }
  }

  /** Digest of the primary store: base-36 magnitude. */
  function Digest36(password: string): string
  {
    "hash_" + ToBase(Abs(HashFold(password)), 36)
  }

  /** Digest of the backup store: decimal magnitude. */
  function Digest10(password: string): string
  {
    "hash_" + ToBase(Abs(HashFold(password)), 10)
  }

  /** Two passwords share a digest exactly when their folds have the same
      magnitude; the rendering loses nothing else. */
  lemma DigestEqualIff(p: string, q: string, base: nat)
    requires base == 10 || base == 36
    ensures ("hash_" + ToBase(Abs(HashFold(p)), base) == "hash_" + ToBase(Abs(HashFold(q)), base))
        <==> Abs(HashFold(p)) == Abs(HashFold(q))
  {
    var a, b := ToBase(Abs(HashFold(p)), base), ToBase(Abs(HashFold(q)), base);
    if "hash_" + a == "hash_" + b {
      assert a == ("hash_" + a)[5..];
      assert b == ("hash_" + b)[5..];
      FromToBase(Abs(HashFold(p)), base);
      FromToBase(Abs(HashFold(q)), base);
    }
  }

  /** Every digest is "hash_" followed by at least one digit of its base. */
  lemma DigestShape(password: string)
    ensures |Digest36(password)| >= 6 && Digest36(password)[..5] == "hash_"
    ensures forall i :: 5 <= i < |Digest36(password)| ==> IsDigitChar(Digest36(password)[i], 36)
    ensures |Digest10(password)| >= 6 && Digest10(password)[..5] == "hash_"
    ensures forall i :: 5 <= i < |Digest10(password)| ==> IsDigitChar(Digest10(password)[i], 10)
  {
    ToBaseDigits(Abs(HashFold(password)), 36);
    ToBaseDigits(Abs(HashFold(password)), 10);
  }

  /** The wrapped fold of a password differs from the exact polynomial only
      by a multiple of 2^32, so collisions are easy: "Aa" and "BB" share it. */
  lemma KnownCollision()
    ensures HashFold("Aa") == HashFold("BB") && Digest36("Aa") == Digest36("BB")
  {
    assert "Aa"[..1] == "A" && "BB"[..1] == "B";
    assert "A"[..0] == [] && "B"[..0] == [];
  }
}
