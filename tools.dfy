// String and number helpers every tree rests on (tools.cpp, tools.hpp).
module Tools {
  import opened Results

  // ---------------------------------------------------------------------
  // Hashing.  SHA-256 through OpenSSL is a foreign call; the model keeps
  // only what the trees rely on: the hex text of a digest is 64 lower-case
  // hexadecimal characters.

  predicate IsLowerHexChar(c: char) { '0' <= c <= '9' || 'a' <= c <= 'f' }

  predicate IsDigest(s: string) {
    |s| == 64 && forall i :: 0 <= i < |s| ==> IsLowerHexChar(s[i])
  }

  const ZeroDigest: string := Repeat('0', 64)

  /** calculateSHA256Hash is passed to every tree as a function value. */
  type Hasher = string -> string

  /** The hash as the trees see it: SHA-256's hex text is always a digest,
      so the model takes H's answer whenever it has that form. */
  function Hash(H: Hasher, s: string): (d: string)
    ensures IsDigest(d)
    ensures IsDigest(H(s)) ==> d == H(s)
  {
    if IsDigest(H(s)) then H(s) else ZeroDigest
  }

  /** Stands in a proof for an empty sibling slot: 64 '@'. */
  const Null64: string := Repeat('@', 64)

  lemma {:induction false} DigestIsNotNull(s: string)
    requires IsDigest(s)
    ensures s != Null64 && s[0] != '@'
  {
    assert IsLowerHexChar(s[0]);
  }

  // ---------------------------------------------------------------------
  // std::string::substr and std::string::replace: both throw
  // std::out_of_range when the start position is past the end, and both
  // clip the length to what is left of the string.

  function Min(a: int, b: int): int { if a < b then a else b }

  function Substr(s: string, pos: nat, len: nat): (r: Option<string>)
    ensures r.Some? <==> pos <= |s|
    ensures r.Some? ==> |r.value| == Min(len, |s| - pos) && r.value <= s[pos..]
  {
    if pos > |s| then None else Some(s[pos .. pos + Min(len, |s| - pos)])
  }

  function Replace(s: string, pos: nat, len: nat, t: string): (r: Option<string>)
    ensures r.Some? <==> pos <= |s|
    ensures r.Some? ==> |r.value| == |s| - Min(len, |s| - pos) + |t|
    ensures r.Some? ==> r.value[..pos] == s[..pos]
  {
    if pos > |s| then None else Some(s[..pos] + t + s[pos + Min(len, |s| - pos)..])
  }

  /** Replacing a whole block of a string by one of the same length keeps
      the length and every other character. */
  lemma {:induction false} ReplaceBlock(s: string, pos: nat, t: string)
    requires pos + |t| <= |s|
    ensures Replace(s, pos, |t|, t).Some?
    ensures Replace(s, pos, |t|, t).value == s[..pos] + t + s[pos + |t|..]
    ensures |Replace(s, pos, |t|, t).value| == |s|
  {
  }

  // ---------------------------------------------------------------------
  // Powers, used for the length bounds below.

  function Pow(b: nat, e: nat): (r: nat)
    ensures b >= 1 ==> r >= 1
  {
    if e == 0 then 1 else b * Pow(b, e - 1)
  }

  // ---------------------------------------------------------------------
  // The hti and htb tables.

  predicate IsUpperHexChar(c: char) { '0' <= c <= '9' || 'A' <= c <= 'F' }

  predicate IsUpperHex(s: string) { forall i :: 0 <= i < |s| ==> IsUpperHexChar(s[i]) }

  /** hti: '0'-'9', 'A'-'F' and 'a'-'f' to their values; looking up any other
      character in the std::map inserts and returns 0. */
  function Hti(c: char): (d: nat)
    ensures d < 16
    ensures '0' <= c <= '9' ==> d == c as int - '0' as int
    ensures 'A' <= c <= 'F' || 'a' <= c <= 'f' ==> d >= 10
  {
    if '0' <= c <= '9' then c as int - '0' as int
    else if 'A' <= c <= 'F' then c as int - 'A' as int + 10
    else if 'a' <= c <= 'f' then c as int - 'a' as int + 10
    else 0
  }

  /** The upper-case digit int_to_hex writes for a value below 16. */
  function HexDigit(d: nat): (c: char)
    requires d < 16
    ensures IsUpperHexChar(c) && Hti(c) == d
  {
    if d < 10 then ('0' as int + d) as char else ('A' as int + d - 10) as char
  }

  lemma {:induction false} HtiInjectiveOnUpperHex(a: char, b: char)
    requires IsUpperHexChar(a) && IsUpperHexChar(b) && Hti(a) == Hti(b)
    ensures a == b
  {
  }

  /** The four-character MSB-first binary code of a value below 16. */
  function Nibble(d: nat): (s: string)
    requires d < 16
    ensures |s| == 4
  {
    [if d / 8 % 2 == 1 then '1' else '0', if d / 4 % 2 == 1 then '1' else '0',
     if d / 2 % 2 == 1 then '1' else '0', if d % 2 == 1 then '1' else '0']
  }

  /** htb: only the upper-case digits are in the table; any other character
      yields the empty string the std::map inserts for it. */
  function Htb(c: char): (s: string)
    ensures IsUpperHexChar(c) ==> s == Nibble(Hti(c))
    ensures !IsUpperHexChar(c) ==> s == ""
  {
    if IsUpperHexChar(c) then Nibble(Hti(c)) else ""
  }

  /** hex_to_binary first moves every lower-case letter to upper case. */
  function Upcase(c: char): char {
    if 'a' <= c <= 'z' then ('A' as int + (c as int - 'a' as int)) as char else c
  }

  predicate IsHexChar(c: char) { IsUpperHexChar(c) || 'a' <= c <= 'f' }

  // ---------------------------------------------------------------------
  // hex_to_binary

  /** What hex_to_binary returns: the htb codes of the up-cased characters,
      in order. */
  function HexToBinarySpec(hex: string): string
  {
    if hex == [] then [] else HexToBinarySpec(hex[..|hex| - 1]) + Htb(Upcase(hex[|hex| - 1]))
  }

  method HexToBinary(hex: string) returns (output: string)
    ensures output == HexToBinarySpec(hex)
  {
    output := [];
    var i := 0;
    while i < |hex|
      invariant 0 <= i <= |hex|
      invariant output == HexToBinarySpec(hex[..i])
    {
      var j := hex[i];
      if 'a' <= j <= 'z' {
        j := ('A' as int + (j as int - 'a' as int)) as char;
      }
      HexToBinaryStep(hex, i, j);
      output := output + Htb(j);
      i := i + 1;
    }
    assert hex[..|hex|] == hex;
  }

  /** On valid hex (either case) every character becomes its 4-bit code, so
      the output is four times as long and block i is the code of hex[i]. */
  lemma {:induction false} HexToBinaryBlocks(hex: string)
    requires forall i :: 0 <= i < |hex| ==> IsHexChar(hex[i])
    ensures |HexToBinarySpec(hex)| == 4 * |hex|
    ensures forall i :: 0 <= i < |hex| ==>
      HexToBinarySpec(hex)[4 * i .. 4 * i + 4] == Nibble(Hti(hex[i]))
  {
    if hex != [] {
      HexToBinaryBlocks(hex[..|hex| - 1]);
      BlocksGrow(hex);
    }
  }

  /** The blocks of all but the last character, then the last one's. */
  lemma {:induction false} BlocksGrow(hex: string)
    requires hex != [] && forall i :: 0 <= i < |hex| ==> IsHexChar(hex[i])
    requires var front := HexToBinarySpec(hex[..|hex| - 1]);
      |front| == 4 * (|hex| - 1)
      && forall i :: 0 <= i < |hex| - 1 ==> front[4 * i .. 4 * i + 4] == Nibble(Hti(hex[..|hex| - 1][i]))
    ensures |HexToBinarySpec(hex)| == 4 * |hex|
    ensures forall i :: 0 <= i < |hex| ==>
      HexToBinarySpec(hex)[4 * i .. 4 * i + 4] == Nibble(Hti(hex[i]))
  {
    var init := hex[..|hex| - 1];
    var c := hex[|hex| - 1];
    assert IsUpperHexChar(Upcase(c)) && Hti(Upcase(c)) == Hti(c);
    var front := HexToBinarySpec(init);
    var out := HexToBinarySpec(hex);
    assert out == front + Nibble(Hti(c));
    forall i | 0 <= i < |hex|
      ensures out[4 * i .. 4 * i + 4] == Nibble(Hti(hex[i]))
    {
      if i < |hex| - 1 {
        SliceOfFront(front, Nibble(Hti(c)), 4 * i, 4 * i + 4);
        assert init[i] == hex[i];
      } else {
        assert out[4 * i .. 4 * i + 4] == Nibble(Hti(c));
      }
    }
  }

  lemma {:induction false} HexToBinaryStep(hex: string, i: int, j: char)
    requires 0 <= i < |hex| && j == Upcase(hex[i])
    ensures HexToBinarySpec(hex[..i + 1]) == HexToBinarySpec(hex[..i]) + Htb(j)
  {
    assert hex[..i + 1][..i] == hex[..i];
  }

  lemma {:induction false} SliceOfFront(a: string, b: string, x: int, y: int)
    requires 0 <= x <= y <= |a|
    ensures (a + b)[x..y] == a[x..y]
  {
  }

  // ---------------------------------------------------------------------
  // int_to_binary

  /** Bit i of d as the character int_to_binary writes at position i. */
  function BitChar(d: nat, i: nat): char {
    if (d / Pow(2, i)) % 2 == 1 then '1' else '0'
  }

  /** int_to_binary(d, n): n characters, bit i of d at position i (LSB first). */
  function BitsLsb(d: nat, n: nat): (s: string)
    ensures |s| == n
    ensures forall i :: 0 <= i < n ==> s[i] == BitChar(d, i)
  {
    if n == 0 then [] else BitsLsb(d, n - 1) + [BitChar(d, n - 1)]
  }

  lemma {:induction false} HighBitIsZero(d: nat, i: nat)
    requires d < Pow(2, i)
    ensures BitChar(d, i) == '0'
  {
    var p := Pow(2, i);
    SmallQuotient(d, p);
  }

  lemma {:induction false} SmallQuotient(d: nat, p: nat)
    requires d < p
    ensures d / p == 0
  {
  }

  lemma {:induction false} PowMonotone(b: nat, i: nat, j: nat)
    requires b >= 1 && i <= j
    ensures Pow(b, i) <= Pow(b, j)
  {
    if i < j { PowMonotone(b, i, j - 1); }
  }

  /** The source writes into a buffer of numBits+1 characters, so it needs
      numBits >= 1 and decimal < 2^numBits; anything else overruns it. */
  method IntToBinary(decimal: nat, numBits: nat) returns (s: string)
    requires numBits >= 1 && decimal < Pow(2, numBits)
    ensures s == BitsLsb(decimal, numBits)
  {
    s := [BitChar(decimal, 0)];
    var i := 1;
    var l := 2;
    while l <= decimal
      invariant 1 <= i && l == Pow(2, i)
      invariant i <= numBits
      invariant s == BitsLsb(decimal, i)
      decreases decimal - l
    {
      s := s + [BitChar(decimal, i)];
      i, l := i + 1, l * 2;
      if numBits < i {
        PowMonotone(2, numBits, i - 1);
      }
    }
    while i < numBits
      invariant 1 <= i <= numBits
      invariant decimal < Pow(2, i)
      invariant s == BitsLsb(decimal, i)
    {
      HighBitIsZero(decimal, i);
      s := s + ['0'];
      i := i + 1;
    }
  }

  // ---------------------------------------------------------------------
  // int_to_hex (both overloads)

  /** The digits int_to_hex(d) writes: upper-case, least significant first,
      "" for 0. */
  function HexDigitsLsb(d: nat): (s: string)
    ensures IsUpperHex(s)
    ensures d == 0 <==> s == []
    decreases d
  {
    if d == 0 then [] else [HexDigit(d % 16)] + HexDigitsLsb(d / 16)
  }

  /** Reads a string of hex digits least significant first. */
  function HexValueLsb(s: string): nat
  {
    if s == [] then 0 else Hti(s[0]) + 16 * HexValueLsb(s[1..])
  }

  lemma {:induction false} HexDigitsRoundTrip(d: nat)
    ensures HexValueLsb(HexDigitsLsb(d)) == d
    decreases d
  {
    if d != 0 {
      HexDigitsRoundTrip(d / 16);
      assert HexDigitsLsb(d)[1..] == HexDigitsLsb(d / 16);
    }
  }

  /** Distinct numbers get distinct int_to_hex strings. */
  lemma {:induction false} HexDigitsInjective(a: nat, b: nat)
    requires HexDigitsLsb(a) == HexDigitsLsb(b)
    ensures a == b
  {
    HexDigitsRoundTrip(a);
    HexDigitsRoundTrip(b);
  }

  lemma {:induction false} HexDigitsLength(d: nat, n: nat)
    ensures |HexDigitsLsb(d)| <= n <==> d < Pow(16, n)
    decreases d
  {
    if d != 0 && n != 0 {
      HexDigitsLength(d / 16, n - 1);
    }
  }

  method IntToHex(decimal: nat) returns (hex: string)
    ensures hex == HexDigitsLsb(decimal)
  {
    hex := [];
    var d := decimal;
    while d > 0
      invariant hex + HexDigitsLsb(d) == HexDigitsLsb(decimal)
    {
      hex := hex + [HexDigit(d % 16)];
      d := d / 16;
    }
  }

  function Repeat(c: char, n: nat): (s: string)
    ensures |s| == n && forall i :: 0 <= i < n ==> s[i] == c
  {
    seq(n, _ => c)
  }

  /** int_to_hex(d, n): the digits of int_to_hex(d) padded with '0' to n. */
  function PaddedHex(d: nat, n: nat): string
    requires d < Pow(16, n)
  {
    HexDigitsLength(d, n);
    HexDigitsLsb(d) + Repeat('0', n - |HexDigitsLsb(d)|)
  }

  lemma {:induction false} TrailingZerosKeepValue(s: string, k: nat)
    ensures HexValueLsb(s + Repeat('0', k)) == HexValueLsb(s)
    decreases |s| + k
  {
    if s == [] {
      if k > 0 {
        var z := Repeat('0', k);
        assert s + z == z && z[0] == '0' && z[1..] == [] + Repeat('0', k - 1);
        TrailingZerosKeepValue([], k - 1);
        assert HexValueLsb(z) == Hti('0') + 16 * HexValueLsb(z[1..]);
      }
    } else {
      assert (s + Repeat('0', k))[1..] == s[1..] + Repeat('0', k);
      TrailingZerosKeepValue(s[1..], k);
    }
  }

  /** A padded index has exactly n characters and reads back to d, so two
      indices padded to the same width differ whenever the numbers do. */
  lemma {:induction false} PaddedHexFacts(d: nat, n: nat)
    requires d < Pow(16, n)
    ensures |PaddedHex(d, n)| == n && IsUpperHex(PaddedHex(d, n))
    ensures HexValueLsb(PaddedHex(d, n)) == d
  {
    HexDigitsLength(d, n);
    TrailingZerosKeepValue(HexDigitsLsb(d), n - |HexDigitsLsb(d)|);
    HexDigitsRoundTrip(d);
  }

  /** The buffer has numBits+1 characters, so the digits must fit in it. */
  method IntToHexPadded(decimal: nat, numBits: nat) returns (hex: string)
    requires decimal < Pow(16, numBits)
    ensures hex == PaddedHex(decimal, numBits)
    ensures |hex| == numBits && HexValueLsb(hex) == decimal
  {
    hex := IntToHex(decimal);
    HexDigitsLength(decimal, numBits);
    var i := |hex|;
    while i < numBits
      invariant |hex| == i <= numBits
      invariant hex == HexDigitsLsb(decimal) + Repeat('0', i - |HexDigitsLsb(decimal)|)
    {
      hex := hex + ['0'];
      i := i + 1;
    }
    PaddedHexFacts(decimal, numBits);
  }

  // ---------------------------------------------------------------------
  // is_prefix and common_prefix

  /** is_prefix(str, pre): str.compare(0, |pre|, pre) == 0, which compares
      the first min(|pre|, |str|) characters of str with all of pre. */
  function IsPrefix(str: string, pre: string): (r: bool)
    ensures r <==> pre <= str
    ensures |pre| > |str| ==> !r
  {
    var n := if |pre| < |str| then |pre| else |str|;
    str[..n] == pre
  }

  /** The longest common prefix, specified by what makes it unique. */
  function CommonPrefix(s1: string, s2: string): (r: string)
    ensures r <= s1 && r <= s2
    ensures |r| == |s1| || |r| == |s2| || s1[|r|] != s2[|r|]
  {
    if s1 == [] || s2 == [] || s1[0] != s2[0] then []
    else [s1[0]] + CommonPrefix(s1[1..], s2[1..])
  }

  method CommonPrefixLoop(s1: string, s2: string) returns (result: string)
    ensures result == CommonPrefix(s1, s2)
  {
    result := [];
    var len := if |s1| < |s2| then |s1| else |s2|;
    var i := 0;
    while i < len
      invariant 0 <= i <= len
      invariant result == s1[..i] == s2[..i]
    {
      if s1[i] != s2[i] {
        break;
      }
      result := result + [s1[i]];
      i := i + 1;
    }
    CommonPrefixUnique(s1, s2, result);
  }

  /** Any common prefix that cannot be extended is the common prefix. */
  lemma {:induction false} CommonPrefixUnique(s1: string, s2: string, r: string)
    requires r <= s1 && r <= s2
    requires |r| == |s1| || |r| == |s2| || s1[|r|] != s2[|r|]
    ensures r == CommonPrefix(s1, s2)
  {
    if r != [] {
      CommonPrefixUnique(s1[1..], s2[1..], r[1..]);
    }
  }

  // ---------------------------------------------------------------------
  // up_to and up_to_max

  /** up_to(x, v) doubles x while 2x < v. */
  function UpTo(x: int, v: int): (r: int)
    requires x >= 1
    ensures x <= r && v <= 2 * r
    ensures r == x || r < v
    decreases v - x
  {
    if x * 2 < v then UpTo(x * 2, v) else x
  }

  /** The number of doublings up_to performs. */
  function UpToSteps(x: int, v: int): nat
    requires x >= 1
    decreases v - x
  {
    if x * 2 < v then 1 + UpToSteps(x * 2, v) else 0
  }

  /** up_to(x, v) == x * 2^k for the least k with x * 2^(k+1) >= v. */
  lemma {:induction false} UpToIsLeastDoubling(x: int, v: int)
    requires x >= 1
    ensures UpTo(x, v) == x * Pow(2, UpToSteps(x, v))
    ensures 2 * UpTo(x, v) >= v
    ensures forall j: nat :: j < UpToSteps(x, v) ==> 2 * (x * Pow(2, j)) < v
    decreases v - x
  {
    if x * 2 < v {
      UpToIsLeastDoubling(x * 2, v);
      var k := UpToSteps(x * 2, v);
      DoubleShift(x, k + 1);
      forall j: nat | j < UpToSteps(x, v) ensures 2 * (x * Pow(2, j)) < v {
        if j > 0 {
          DoubleShift(x, j);
        }
      }
    }
  }

  lemma {:induction false} DoubleShift(x: int, j: nat)
    requires j > 0
    ensures x * 2 * Pow(2, j - 1) == x * Pow(2, j)
  {
    calc {
      x * Pow(2, j);
      x * (2 * Pow(2, j - 1));
      { MulAssoc(x, 2, Pow(2, j - 1)); }
      x * 2 * Pow(2, j - 1);
    }
  }

  lemma {:induction false} MulAssoc(a: int, b: int, c: int)
    ensures a * (b * c) == a * b * c
  {
  }

  method UpToLoop(x: int, v: int) returns (r: int)
    requires x >= 1
    ensures r == UpTo(x, v)
  {
    r := x;
    while r * 2 < v
      invariant r >= x && UpTo(r, v) == UpTo(x, v)
      decreases v - r
    {
      r := r * 2;
    }
  }

  /** up_to_max(x, v) moves x to 2x+1 while 2x+1 < v. */
  function UpToMax(x: int, v: int): (r: int)
    requires x >= 0
    ensures x <= r && v <= 2 * r + 1
    ensures r == x || r < v
    decreases v - x
  {
    if x * 2 + 1 < v then UpToMax(x * 2 + 1, v) else x
  }

  method UpToMaxLoop(x: int, v: int) returns (r: int)
    requires x >= 0
    ensures r == UpToMax(x, v)
  {
    r := x;
    while r * 2 + 1 < v
      invariant r >= x && UpToMax(r, v) == UpToMax(x, v)
      decreases v - r
    {
      r := r * 2 + 1;
    }
  }

  /** For a node x on level m of a heap-numbered tree (2^m <= x < 2^(m+1))
      and a power-of-two bound 2^hb above that level, up_to gives the first
      descendant of x on level hb-1 ... */
  lemma {:induction false} UpToOnLevel(x: int, m: nat, hb: nat)
    requires Pow(2, m) <= x < Pow(2, m + 1) && m + 1 <= hb
    ensures UpTo(x, Pow(2, hb)) == x * Pow(2, hb - 1 - m)
    decreases hb - m
  {
    if m + 1 == hb {
      LevelTop(x, m, hb);
    } else {
      LevelStep(x, m, hb);
      UpToOnLevel(x * 2, m + 1, hb);
      var q := Pow(2, hb - 2 - m);
      assert Pow(2, hb - 1 - m) == 2 * q;
      MulAssoc2(x, q);
    }
  }

  /** ... and up_to_max the last one. */
  lemma {:induction false} UpToMaxOnLevel(x: int, m: nat, hb: nat)
    requires Pow(2, m) <= x < Pow(2, m + 1) && m + 1 <= hb
    ensures UpToMax(x, Pow(2, hb)) == (x + 1) * Pow(2, hb - 1 - m) - 1
    decreases hb - m
  {
    if m + 1 == hb {
      LevelTop(x, m, hb);
    } else {
      LevelStep(x, m, hb);
      UpToMaxOnLevel(x * 2 + 1, m + 1, hb);
      var q := Pow(2, hb - 2 - m);
      assert Pow(2, hb - 1 - m) == 2 * q;
      MulAssoc2(x + 1, q);
    }
  }

  lemma {:induction false} LevelTop(x: int, m: nat, hb: nat)
    requires Pow(2, m) <= x < Pow(2, m + 1) && m + 1 == hb
    ensures !(x * 2 < Pow(2, hb)) && !(x * 2 + 1 < Pow(2, hb))
    ensures Pow(2, hb - 1 - m) == 1
  {
    assert Pow(2, hb) == 2 * Pow(2, m);
  }

  lemma {:induction false} LevelStep(x: int, m: nat, hb: nat)
    requires Pow(2, m) <= x < Pow(2, m + 1) && m + 1 < hb
    ensures x * 2 + 1 < Pow(2, hb)
    ensures Pow(2, m + 1) <= x * 2 < Pow(2, m + 2)
    ensures Pow(2, m + 1) <= x * 2 + 1 < Pow(2, m + 2)
  {
    PowMonotone(2, m + 2, hb);
    assert Pow(2, m + 2) == 2 * Pow(2, m + 1) && Pow(2, m + 1) == 2 * Pow(2, m);
  }

  lemma {:induction false} MulAssoc2(a: int, q: int)
    ensures (a * 2) * q == a * (2 * q)
  {
  }

  // ---------------------------------------------------------------------
  // itos and std::to_string

  function DigitChar(d: nat): (c: char)
    requires d < 10
    ensures '0' <= c <= '9'
  {
    ('0' as int + d) as char
  }

  /** std::to_string of a non-negative number: decimal, no leading zeros. */
  function NatDecimal(d: nat): (s: string)
    ensures |s| >= 1 && forall i :: 0 <= i < |s| ==> '0' <= s[i] <= '9'
    decreases d
  {
    if d < 10 then [DigitChar(d)] else NatDecimal(d / 10) + [DigitChar(d % 10)]
  }

  /** std::to_string of a long long. */
  function DecimalString(d: int): string {
    if d < 0 then "-" + NatDecimal(-d) else NatDecimal(d)
  }

  function DecimalValue(s: string): nat
    requires forall i :: 0 <= i < |s| ==> '0' <= s[i] <= '9'
  {
    if s == [] then 0
    else 10 * DecimalValue(s[..|s| - 1]) + (s[|s| - 1] as int - '0' as int)
  }

  lemma {:induction false} NatDecimalRoundTrip(d: nat)
    ensures DecimalValue(NatDecimal(d)) == d
    decreases d
  {
    if d >= 10 {
      NatDecimalRoundTrip(d / 10);
      var s := NatDecimal(d);
      assert s[..|s| - 1] == NatDecimal(d / 10);
    }
  }

  const TenZeros: string := "0000000000"

  /** itos(d): the storage id of heap node d, ten '0' then to_string(d). The
      statements after the return in the source are never reached. */
  function Itos(d: int): string {
    TenZeros + DecimalString(d)
  }

  lemma {:induction false} ItosLength(d: int)
    ensures |Itos(d)| == 10 + |DecimalString(d)|
  {
  }

  /** Distinct ids are stored under distinct keys. */
  lemma {:induction false} ItosInjective(a: int, b: int)
    requires Itos(a) == Itos(b)
    ensures a == b
  {
    var sa, sb := DecimalString(a), DecimalString(b);
    assert sa == Itos(a)[10..] && sb == Itos(b)[10..];
    assert sa == sb;
    DecimalStringInjective(a, b);
  }

  lemma {:induction false} DecimalStringInjective(a: int, b: int)
    requires DecimalString(a) == DecimalString(b)
    ensures a == b
  {
    DecimalSign(a);
    DecimalSign(b);
    if a < 0 {
      NegativeDigits(a);
      NegativeDigits(b);
      NatDecimalInjective(-a, -b);
    } else {
      NatDecimalInjective(a, b);
    }
  }

  lemma {:induction false} NatDecimalInjective(a: nat, b: nat)
    requires NatDecimal(a) == NatDecimal(b)
    ensures a == b
  {
    NatDecimalRoundTrip(a);
    NatDecimalRoundTrip(b);
  }

  lemma {:induction false} NegativeDigits(d: int)
    requires d < 0
    ensures DecimalString(d)[1..] == NatDecimal(-d)
  {
    var n := NatDecimal(-d);
    assert DecimalString(d) == "-" + n;
    assert ("-" + n)[1..] == n;
  }

  lemma {:induction false} DecimalSign(d: int)
    ensures |DecimalString(d)| >= 1
    ensures DecimalString(d)[0] == '-' <==> d < 0
  {
    if d >= 0 {
      assert '0' <= NatDecimal(d)[0] <= '9';
    }
  }
}
