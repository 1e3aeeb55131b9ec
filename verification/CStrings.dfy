/** Bytes, NUL-terminated strings inside a buffer, and decimal numbers as C reads and
    prints them. A `char` is signed, as on the platforms the program is built for. */
module CStrings {

  type Char = c: int | -128 <= c < 128

  type Text = seq<Char>

  /** Storing an integer in a `char`. */
  function ToChar(x: int): Char {
    (x + 128) % 256 - 128
  }

  /** The largest `int`. */
  const INT_MAX: nat := 0x7fff_ffff

  predicate NulFree(s: Text) {
    forall k | 0 <= k < |s| :: s[k] != 0
  }

  /** A buffer of `n` zeros. */
  function Zeros(n: nat): (r: seq<Char>)
    ensures |r| == n && forall k | 0 <= k < n :: r[k] == 0
  {
    if n == 0 then [] else Zeros(n - 1) + [0]
  }

  /** `at + strlen(&buf[at])`: where the string starting at `at` ends. */
  function End(buf: seq<Char>, at: nat): (e: nat)
    requires at <= |buf|
    ensures at <= e <= |buf|
    ensures NulFree(buf[at..e])
    ensures e < |buf| ==> buf[e] == 0
    decreases |buf| - at
  {
    if at == |buf| || buf[at] == 0 then at
    else
      var e := End(buf, at + 1);
      assert buf[at..e] == [buf[at]] + buf[at + 1..e];
      e
  }

  /** The string starting at `at`. */
  function StringAt(buf: seq<Char>, at: nat): Text
    requires at <= |buf|
  {
    buf[at..End(buf, at)]
  }

  /** `strcpy(&buf[at], s)`. */
  function Put(buf: seq<Char>, at: nat, s: Text): (r: seq<Char>)
    requires at + |s| < |buf|
    ensures |r| == |buf|
    ensures r[at..at + |s|] == s && r[at + |s|] == 0
    ensures forall k | 0 <= k < |buf| && (k < at || k > at + |s|) :: r[k] == buf[k]
  {
    buf[..at] + s + [0] + buf[at + |s| + 1..]
  }

  lemma EndUnique(buf: seq<Char>, at: nat, e: nat)
    requires at <= e < |buf| && NulFree(buf[at..e]) && buf[e] == 0
    ensures End(buf, at) == e
    decreases e - at
  {}

  /** A NUL-free string followed by a NUL is read back whole. */
  lemma ReadBack(buf: seq<Char>, at: nat, s: Text)
    requires at + |s| < |buf| && NulFree(s)
    requires buf[at..at + |s|] == s && buf[at + |s|] == 0
    ensures End(buf, at) == at + |s| && StringAt(buf, at) == s
  {}

  /** `safe_strncpy` into a field of `n + 1` bytes. */
  function Truncated(s: Text, n: nat): (r: Text)
    ensures r <= s && |r| == if |s| <= n then |s| else n
    ensures NulFree(s) ==> NulFree(r)
  {
    if |s| <= n then s else s[..n]
  }

  // ---- Decimal numbers ----

  const ZERO: Char := 48
  const MINUS: Char := 45
  const PLUS: Char := 43

  predicate IsDigit(c: Char) { ZERO <= c < ZERO + 10 }

  predicate IsSpace(c: Char) { c == 32 || 9 <= c <= 13 }

  function Digits(n: nat): (s: Text)
    ensures s != [] && forall k | 0 <= k < |s| :: IsDigit(s[k])
  {
    if n < 10 then [ZERO + n] else Digits(n / 10) + [ZERO + n % 10]
  }

  /** An integer column as SQLite renders it. */
  function Decimal(n: int): (s: Text)
    ensures NulFree(s) && s != []
  {
    if n < 0 then [MINUS] + Digits(-n) else Digits(n)
  }

  /** The value of the longest run of digits at the front of `s`, continuing from `acc`. */
  function Value(s: Text, acc: nat): nat {
    if s == [] || !IsDigit(s[0]) then acc else Value(s[1..], 10 * acc + (s[0] - ZERO))
  }

  function SkipSpaces(s: Text): Text {
    if s != [] && IsSpace(s[0]) then SkipSpaces(s[1..]) else s
  }

  function Atoi(s: Text): int {
    var r := SkipSpaces(s);
    if r != [] && r[0] == MINUS then 0 - Value(r[1..], 0)
    else if r != [] && r[0] == PLUS then Value(r[1..], 0)
    else Value(r, 0)
  }

  lemma {:induction false} ValueAppend(s: Text, c: Char, acc: nat)
    requires (forall k | 0 <= k < |s| :: IsDigit(s[k])) && IsDigit(c)
    ensures Value(s + [c], acc) == 10 * Value(s, acc) + (c - ZERO)
  {
    if s == [] {
      assert (s + [c])[1..] == [];
    } else {
      assert (s + [c])[1..] == s[1..] + [c];
      ValueAppend(s[1..], c, 10 * acc + (s[0] - ZERO));
    }
  }

  lemma {:induction false} ValueOfDigits(n: nat)
    ensures Value(Digits(n), 0) == n
  {
    if n < 10 {
      assert Value([ZERO + n][1..], n) == n;
    } else {
      ValueOfDigits(n / 10);
      ValueAppend(Digits(n / 10), ZERO + n % 10, 0);
    }
  }

  /** `atoi` undoes the decimal rendering of every integer. */
  lemma AtoiOfDecimal(n: int)
    ensures Atoi(Decimal(n)) == n
  {
    if n < 0 {
      ValueOfDigits(-n);
      assert ([MINUS] + Digits(-n))[1..] == Digits(-n);
    } else {
      ValueOfDigits(n);
    }
  }

  lemma {:induction false} SkipsAll(pre: Text, r: Text)
    requires (forall k | 0 <= k < |pre| :: IsSpace(pre[k])) && (r == [] || !IsSpace(r[0]))
    ensures SkipSpaces(pre + r) == r
  {
    if pre == [] {
      assert pre + r == r;
    } else {
      SkipsAll(pre[1..], r);
      assert (pre + r)[1..] == pre[1..] + r;
    }
  }

  lemma {:induction false} ValueStops(s: Text, rest: Text, acc: nat)
    requires (forall k | 0 <= k < |s| :: IsDigit(s[k])) && (rest == [] || !IsDigit(rest[0]))
    ensures Value(s + rest, acc) == Value(s, acc)
  {
    if s == [] {
      assert s + rest == rest;
    } else {
      ValueStops(s[1..], rest, 10 * acc + (s[0] - ZERO));
      assert (s + rest)[1..] == s[1..] + rest;
    }
  }

  /** `atoi` skips leading blanks, reads a number with or without a sign, and stops at the
      first character that is no digit. */
  lemma AtoiReads(pre: Text, n: nat, rest: Text)
    requires forall k | 0 <= k < |pre| :: pre[k] == 32 || 9 <= pre[k] <= 13
    requires rest == [] || !(48 <= rest[0] <= 57)
    ensures Atoi(pre + (Digits(n) + rest)) == n
    ensures Atoi(pre + ([43] + (Digits(n) + rest))) == n
    ensures Atoi(pre + ([45] + (Digits(n) + rest))) == 0 - n
  {
    var number := Digits(n) + rest;
    ValueOfDigits(n);
    ValueStops(Digits(n), rest, 0);
    SkipsAll(pre, number);
    SkipsAll(pre, [43] + number);
    SkipsAll(pre, [45] + number);
    assert ([43] + number)[1..] == number && ([45] + number)[1..] == number;
  }

  /** Where no number begins, the result is 0. */
  lemma AtoiOfNoNumber(pre: Text, rest: Text)
    requires forall k | 0 <= k < |pre| :: pre[k] == 32 || 9 <= pre[k] <= 13
    requires rest == [] || !(9 <= rest[0] <= 13 || rest[0] in {32, 43, 45} || 48 <= rest[0] <= 57)
    ensures Atoi(pre + rest) == 0
  {
    SkipsAll(pre, rest);
  }

  function Pow10(k: nat): nat {
    if k == 0 then 1 else 10 * Pow10(k - 1)
  }

  /** A number below ten to the k has at most k digits. */
  lemma {:induction false} DigitsLength(n: nat, k: nat)
    requires k > 0 && n < Pow10(k)
    ensures |Digits(n)| <= k
  {
    if n < 10 {
    } else {
      DigitsLength(n / 10, k - 1);
    }
  }
}
