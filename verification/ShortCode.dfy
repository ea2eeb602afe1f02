/** Base62 short codes (app/utils/short_code.py): the encode and decode loops, and the proof that
    together they are an order isomorphism between numbers and codes. */
module ShortCode {
  import opened Wrappers

  const BASE: nat := 62

  /** The d-th character of the alphabet [0-9a-zA-Z]. */
  function Symbol(d: nat): char
    requires d < BASE
  {
    if d < 10 then ('0' as int + d) as char
    else if d < 36 then ('a' as int + d - 10) as char
    else ('A' as int + d - 36) as char
  }

  function Base62Alphabet(): (s: string)
    ensures |s| == BASE && forall d | 0 <= d < BASE :: s[d] == Symbol(d)
  {
    seq(BASE, d requires 0 <= d < BASE => Symbol(d))
  }

  /** The alphabet, spelled out as in the source. */
  lemma AlphabetSpelled()
    ensures Base62Alphabet() == "0123456789" + "abcdefghijklmnopqrstuvwxyz" + "ABCDEFGHIJKLMNOPQRSTUVWXYZ"
  {
    var lower, upper := "abcdefghijklmnopqrstuvwxyz", "ABCDEFGHIJKLMNOPQRSTUVWXYZ";
    assert forall d | 0 <= d < 26 :: lower[d] == Symbol(d + 10);
    assert forall d | 0 <= d < 26 :: upper[d] == Symbol(d + 36);
  }

  /** Position of the first occurrence of `c` in `s`, or -1: Python's `str.find`. */
  function Find(s: string, c: char): (i: int)
    ensures -1 <= i < |s|
    ensures i >= 0 ==> s[i] == c && c !in s[..i]
    ensures i < 0 ==> c !in s
  {
    if s == "" then -1
    else if s[0] == c then 0
    else
      var i := Find(s[1..], c);
      assert i >= 0 ==> s[..i + 1] == [s[0]] + s[1..][..i];
      if i < 0 then -1 else i + 1
  }

  function Digit(c: char): (d: int)
    ensures -1 <= d < BASE
  {
    Find(Base62Alphabet(), c)
  }

  predicate Valid(s: string) {
    forall i | 0 <= i < |s| :: Digit(s[i]) >= 0
  }

  /** The number a code denotes, most significant digit first. */
  function Value(s: string): nat
    requires Valid(s)
  {
    if s == "" then 0 else Value(s[..|s| - 1]) * BASE + Digit(s[|s| - 1])
  }

  /** The canonical code of a number. */
  function Encode(n: nat): string {
    if n < BASE then [Base62Alphabet()[n]] else Encode(n / BASE) + [Base62Alphabet()[n % BASE]]
  }

  function Pow62(k: nat): (p: nat)
    ensures p >= 1
  {
    if k == 0 then 1 else BASE * Pow62(k - 1)
  }

  function Reversed(s: string): (r: string)
    ensures |r| == |s|
  {
    if s == "" then "" else Reversed(s[1..]) + [s[0]]
  }

  /** The loop of `encode_base62`: digits are collected least significant first, then reversed. */
  method EncodeBase62(num: int) returns (r: Result<string, string>)
    ensures num < 0 ==> r.Failure?
    ensures num >= 0 ==> r == Success(Encode(num))
  {
    if num < 0 {
      return Failure("Cannot encode negative integers in Base62.");
    }
    if num == 0 {
      return Success([Base62Alphabet()[0]]);
    }
    var chars: string := "";
    var n := num;
    while n > 0
      invariant n >= 0
      invariant n > 0 ==> Encode(num) == Encode(n) + Reversed(chars)
      invariant n == 0 ==> Encode(num) == Reversed(chars)
    {
      var rem := n % BASE;
      ReversedAppend(chars, Base62Alphabet()[rem]);
      n := n / BASE;
      chars := chars + [Base62Alphabet()[rem]];
    }
    return Success(Reversed(chars));
  }

  lemma {:induction false} ReversedAppend(s: string, c: char)
    ensures Reversed(s + [c]) == [c] + Reversed(s)
  {
    if s != "" {
      ReversedAppend(s[1..], c);
      assert (s + [c])[1..] == s[1..] + [c];
    }
  }

  /** The loop of `decode_base62`: fails on the empty string and on a character outside the alphabet. */
  method DecodeBase62(code: string) returns (r: Result<nat, string>)
    ensures r.Success? <==> code != "" && Valid(code)
    ensures r.Success? ==> r.value == Value(code)
  {
    if code == "" {
      return Failure("Cannot decode empty string.");
    }
    var num: nat := 0;
    for i := 0 to |code|
      invariant Valid(code[..i]) && num == Value(code[..i])
    {
      var idx := Digit(code[i]);
      if idx == -1 {
        return Failure("Invalid Base62 character");
      }
      assert code[..i + 1][..i] == code[..i];
      num := num * BASE + idx;
    }
    assert code[..|code|] == code;
    return Success(num);
  }

  /** Every alphabet character is its own position: the 62 characters are pairwise distinct. */
  lemma DigitOfAlphabet(d: nat)
    requires d < BASE
    ensures Digit(Base62Alphabet()[d]) == d
  {
    var i := Digit(Base62Alphabet()[d]);
    assert Symbol(i) == Base62Alphabet()[i] == Base62Alphabet()[d] == Symbol(d);
  }

  /** decode(encode(n)) = n, for every n. */
  lemma {:induction false} DecodeEncode(n: nat)
    ensures Valid(Encode(n)) && Encode(n) != "" && Value(Encode(n)) == n
  {
    DigitOfAlphabet(n % BASE);
    var s := Encode(n);
    if n < BASE {
      assert s[..|s| - 1] == "";
    } else {
      DecodeEncode(n / BASE);
      assert s[..|s| - 1] == Encode(n / BASE);
    }
  }

  /** A canonical code carries no superfluous leading zero. */
  predicate Canonical(s: string) {
    Valid(s) && s != "" && (|s| == 1 || s[0] != '0')
  }

  function StripZeros(s: string): string {
    if |s| > 1 && s[0] == '0' then StripZeros(s[1..]) else s
  }

  lemma ZeroDigit(c: char)
    ensures Digit(c) == 0 <==> c == '0'
  {
    assert Base62Alphabet()[0] == Symbol(0);
    DigitOfAlphabet(0);
  }

  lemma {:induction false} CanonicalPositive(s: string)
    requires Canonical(s) && |s| > 1
    ensures Value(s) >= BASE
  {
    var t := s[..|s| - 1];
    ZeroDigit(t[0]);
    if |t| > 1 {
      CanonicalPositive(t);
    } else {
      assert t[..0] == "" && Value(t) == Digit(t[0]);
    }
  }

  /** The canonical code of q with one more character, which stands alone if q is zero. */
  function Behind(q: nat, c: char): string {
    if q == 0 then [c] else Encode(q) + [c]
  }

  lemma EncodeStep(q: nat, d: nat, n: nat)
    requires d < BASE && n == q * BASE + d
    ensures Encode(n) == Behind(q, Base62Alphabet()[d])
  {
    assert n / BASE == q && n % BASE == d;
  }

  lemma SymbolOfDigit(c: char)
    requires Digit(c) >= 0
    ensures Base62Alphabet()[Digit(c)] == c
  {
  }

  lemma ValueLast(s: string)
    requires Valid(s) && s != ""
    ensures Valid(s[..|s| - 1]) && Digit(s[|s| - 1]) >= 0
    ensures Value(s) == Value(s[..|s| - 1]) * BASE + Digit(s[|s| - 1])
  {
  }

  /** encode(decode(s)) = s on canonical codes. */
  lemma {:induction false} EncodeDecodeCanonical(s: string)
    requires Canonical(s)
    ensures Encode(Value(s)) == s
  {
    var t, c := s[..|s| - 1], s[|s| - 1];
    ValueLast(s);
    SymbolOfDigit(c);
    EncodeStep(Value(t), Digit(c), Value(s));
    assert s == t + [c];
    if |s| == 1 {
      assert t == "";
    } else {
      PrefixPositive(s);
      EncodeDecodeCanonical(t);
    }
  }

  /** Without its last character a canonical code is canonical, and not zero. */
  lemma PrefixPositive(s: string)
    requires Canonical(s) && |s| > 1
    ensures Canonical(s[..|s| - 1]) && Value(s[..|s| - 1]) > 0
  {
    var t := s[..|s| - 1];
    assert t[0] == s[0];
    if |t| > 1 {
      CanonicalPositive(t);
    } else {
      ZeroDigit(t[0]);
      assert t[..0] == "" && Value(t) == Digit(t[0]);
    }
  }

  lemma {:induction false} LeadingZero(s: string)
    requires Valid(s) && s != "" && s[0] == '0'
    ensures Valid(s[1..]) && Value(s[1..]) == Value(s)
  {
    ZeroDigit('0');
    var t := s[..|s| - 1];
    if t == "" {
      assert s[1..] == "" && Value(t) == 0;
    } else {
      LeadingZero(t);
      assert s[1..][..|s| - 2] == t[1..];
    }
  }

  lemma {:induction false} StripKeepsValue(s: string)
    requires Valid(s) && s != ""
    ensures Canonical(StripZeros(s)) && Value(StripZeros(s)) == Value(s)
    ensures StripZeros(s) == s <==> Canonical(s)
  {
    if |s| > 1 && s[0] == '0' {
      LeadingZero(s);
      StripKeepsValue(s[1..]);
      StripNoLonger(s[1..]);
    }
  }

  lemma {:induction false} StripNoLonger(s: string)
    ensures |StripZeros(s)| <= |s|
  {
    if |s| > 1 && s[0] == '0' {
      StripNoLonger(s[1..]);
    }
  }

  /** encode(decode(s)) strips leading zeros, so it gives s back exactly on canonical codes. */
  lemma EncodeDecode(s: string)
    requires Valid(s) && s != ""
    ensures Encode(Value(s)) == StripZeros(s)
    ensures Encode(Value(s)) == s <==> Canonical(s)
  {
    StripKeepsValue(s);
    EncodeDecodeCanonical(StripZeros(s));
  }

  /** encode(n) has length L exactly when 62^(L-1) <= n < 62^L. */
  lemma {:induction false} EncodeLength(n: nat, len: nat)
    requires n > 0 && len > 0
    ensures |Encode(n)| == len <==> Pow62(len - 1) <= n < Pow62(len)
  {
    if n < BASE {
      if len > 1 {
        assert Pow62(len - 1) == BASE * Pow62(len - 2);
      }
    } else if len == 1 {
      DecodeEncode(n / BASE);
    } else {
      EncodeLength(n / BASE, len - 1);
      assert Pow62(len - 1) == BASE * Pow62(len - 2);
    }
  }

  lemma {:induction false} ValueBound(s: string)
    requires Valid(s)
    ensures Value(s) < Pow62(|s|)
  {
    if s != "" {
      ValueBound(s[..|s| - 1]);
    }
  }

  /** Alphabet-lexicographic order on codes of equal length. */
  predicate LexLess(a: string, b: string)
    requires |a| == |b|
  {
    a != "" &&
    (Digit(a[0]) < Digit(b[0]) || (a[0] == b[0] && LexLess(a[1..], b[1..])))
  }

  lemma {:induction false} ValueSplit(s: string)
    requires Valid(s) && s != ""
    ensures Valid(s[1..]) && Value(s) == Digit(s[0]) * Pow62(|s| - 1) + Value(s[1..])
  {
    var t, d := s[..|s| - 1], Digit(s[|s| - 1]);
    if t == "" {
      assert s[1..] == "" && Value(t) == 0;
    } else {
      ValueSplit(t);
      assert s[1..][..|s| - 2] == t[1..];
      ShiftDigit(Digit(s[0]), Pow62(|t| - 1), Value(t[1..]), d);
    }
  }

  lemma ShiftDigit(x: int, p: int, v: int, d: int)
    ensures (x * p + v) * BASE + d == x * (BASE * p) + (v * BASE + d)
  {
    assert x * (BASE * p) == (x * p) * BASE;
  }

  lemma SmallerLeadingDigit(x: nat, y: nat, p: nat, u: nat, v: nat)
    requires x < y && u < p
    ensures x * p + u < y * p + v
  {
    assert (x + 1) * p <= y * p;
  }

  /** On codes of equal length, decode preserves and reflects alphabet-lexicographic order. */
  lemma {:induction false} DecodeIsMonotone(a: string, b: string)
    requires Valid(a) && Valid(b) && |a| == |b|
    ensures LexLess(a, b) <==> Value(a) < Value(b)
    ensures a == b <==> Value(a) == Value(b)
  {
    if a != "" {
      ValueSplit(a);
      ValueSplit(b);
      ValueBound(a[1..]);
      ValueBound(b[1..]);
      var x, y, p := Digit(a[0]), Digit(b[0]), Pow62(|a| - 1);
      if x < y {
        SmallerLeadingDigit(x, y, p, Value(a[1..]), Value(b[1..]));
      } else if y < x {
        SmallerLeadingDigit(y, x, p, Value(b[1..]), Value(a[1..]));
      } else {
        assert a[0] == Base62Alphabet()[x] == b[0];
        assert a == [a[0]] + a[1..] && b == [b[0]] + b[1..];
        DecodeIsMonotone(a[1..], b[1..]);
      }
    }
  }

  /** decode maps the codes of length `len` onto [0, 62^len); with DecodeIsMonotone, one to one. */
  lemma {:induction false} DecodeIsOnto(n: nat, len: nat) returns (s: string)
    requires n < Pow62(len)
    ensures |s| == len && Valid(s) && Value(s) == n
  {
    if len == 0 {
      s := "";
    } else {
      var t := DecodeIsOnto(n / BASE, len - 1);
      DigitOfAlphabet(n % BASE);
      s := t + [Base62Alphabet()[n % BASE]];
      assert s[..|s| - 1] == t;
    }
  }
}
