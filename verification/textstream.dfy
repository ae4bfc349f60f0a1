/** The request text as the command handlers read it: a `std::istream` over one
    request line, consumed by formatted extraction (`>>`). A stream that failed
    once stays failed, as the fail bit of an istream does. */
module TextStream {
  import opened Numeric

  datatype Stream = Stream(rest: string, good: bool)

  /** The white-space class of the C locale. */
  predicate IsSpace(c: char)
  {
    c == ' ' || c == '\t' || c == '\n' || c == '\r' || c as int == 0x0b || c as int == 0x0c
  }

  predicate NoSpace(s: string) { forall i :: 0 <= i < |s| ==> !IsSpace(s[i]) }

  /** A run of digits holds neither white space nor a colon. */
  lemma DigitsNoSpace(s: string)
    requires AllDigits(s)
    ensures NoSpace(s) && forall i :: 0 <= i < |s| ==> s[i] != ':'
  {
    forall i | 0 <= i < |s|
      ensures !IsSpace(s[i]) && s[i] != ':'
    {
      assert IsDigit(s[i]);
    }
  }

  /** What is left after the leading white space that every extraction skips. */
  function SkipSpace(s: string): (r: string)
    ensures |r| <= |s|
    ensures r == [] || !IsSpace(r[0])
  {
    if s != [] && IsSpace(s[0]) then SkipSpace(s[1..]) else s
  }

  /** The length of the run of non-space characters at the front of `s`. */
  function WordLength(s: string): (n: nat)
    ensures n <= |s| && NoSpace(s[..n])
    ensures n < |s| ==> IsSpace(s[n])
  {
    if s == [] || IsSpace(s[0]) then 0
    else
      var n := 1 + WordLength(s[1..]);
      assert s[..n] == [s[0]] + s[1..][..n - 1];
      n
  }

  /** The length of the run of decimal digits at the front of `s`. */
  function DigitRun(s: string): (n: nat)
    ensures n <= |s| && AllDigits(s[..n])
    ensures n < |s| ==> !IsDigit(s[n])
  {
    if s == [] || !IsDigit(s[0]) then 0
    else
      var n := 1 + DigitRun(s[1..]);
      assert s[..n] == [s[0]] + s[1..][..n - 1];
      n
  }

  /** `stream >> word` for a `std::string word` that starts empty: skips white space and
      takes the following run of non-space characters; at the end of the text, or on a
      stream that already failed, it fails and the word stays empty. */
  function ReadWord(st: Stream): (r: (string, Stream))
    ensures r.1.good <==> r.0 != []
    ensures r.1.good ==> st.good && |r.1.rest| < |st.rest|
    ensures NoSpace(r.0)
  {
    if !st.good then ("", st)
    else
      var s := SkipSpace(st.rest);
      if s == [] then ("", Stream(s, false))
      else
        var n := WordLength(s);
        (s[..n], Stream(s[n..], true))
  }

  /** Length of the optional sign in front of a number. */
  function SignLength(s: string): nat
  {
    if s != [] && (s[0] == '-' || s[0] == '+') then 1 else 0
  }

  /** `stream >> n` for an `unsigned int n`: skips white space, takes an optional sign
      and the longest run of digits; no digit, or a magnitude beyond `unsigned int`,
      fails the stream. The value is 0 when nothing was read. */
  function ReadUnsigned(st: Stream): (r: (nat, Stream))
    ensures r.1.good ==> st.good && r.0 <= MaxU32 && |r.1.rest| < |st.rest|
  {
    if !st.good then (0, st)
    else
      var s := SkipSpace(st.rest);
      var k := SignLength(s);
      var t := s[k..];
      var n := DigitRun(t);
      if n == 0 then (0, Stream(t, false))
      else
        match ToUnsigned(k == 1 && s[0] == '-', DigitsValue(t[..n]))
        case None => (MaxU32, Stream(t[n..], false))
        case Some(v) => (v, Stream(t[n..], true))
  }

  /** `boost::lexical_cast<unsigned int>(s)`: the whole of `s` must be an optional sign
      followed by at least one digit, within the range of `unsigned int`; `None` stands
      for the `bad_lexical_cast` exception. */
  function LexicalCast(s: string): (r: Option<nat>)
    ensures var t := s[SignLength(s)..];
      r.Some? <==> t != [] && AllDigits(t) && DigitsValue(t) <= MaxU32
    ensures r.Some? ==> r.value <= MaxU32
    ensures r.Some? && s[0] != '-' ==> r.value == DigitsValue(s[SignLength(s)..])
    ensures r.Some? && s[0] == '-' && DigitsValue(s[1..]) > 0 ==> r.value == U32Modulus - DigitsValue(s[1..])
    ensures r.Some? && s[0] == '-' && DigitsValue(s[1..]) == 0 ==> r.value == 0
    ensures AllDigits(s) && s != [] ==> r == ToUnsigned(false, DigitsValue(s))
  {
    var k := SignLength(s);
    var t := s[k..];
    if t == [] || !AllDigits(t) then None
    else ToUnsigned(k == 1 && s[0] == '-', DigitsValue(t))
  }

  /** The value of a decimal number with a fractional part. */
  function Pow10(k: nat): (r: nat)
    ensures r >= 1
  {
    if k == 0 then 1 else 10 * Pow10(k - 1)
  }

  /** `stream >> x` for a `float x`, over exact decimals: skips white space, takes an
      optional sign, digits, and optionally a point and more digits, with at least one
      digit in all. Exponents and binary rounding are not part of this model. */
  function ReadReal(st: Stream): (r: (real, Stream))
    ensures r.1.good ==> st.good
  {
    if !st.good then (0.0, st)
    else
      var s := SkipSpace(st.rest);
      var k := SignLength(s);
      var t := s[k..];
      var n := DigitRun(t);
      var whole := DigitsValue(t[..n]) as real;
      var u := t[n..];
      var hasPoint := u != [] && u[0] == '.';
      var f := if hasPoint then u[1..] else [];
      var m := if hasPoint then DigitRun(f) else 0;
      var frac := if hasPoint then DigitsValue(f[..m]) as real / Pow10(m) as real else 0.0;
      var magnitude := whole + frac;
      var after := if hasPoint then f[m..] else u;
      if n + m == 0 then (0.0, Stream(after, false))
      else (if k == 1 && s[0] == '-' then -magnitude else magnitude, Stream(after, true))
  }

  /** Reading a float from the decimal text "A.B" (after white space, with A or B
      possibly empty but not both) gives A + B / 10^|B| and leaves the text behind it. */
  lemma {:induction false} ReadRealOf(pre: string, a: string, b: string, rest: string)
    requires forall i :: 0 <= i < |pre| ==> IsSpace(pre[i])
    requires AllDigits(a) && AllDigits(b) && (a != [] || b != [])
    requires rest == [] || !IsDigit(rest[0])
    ensures ReadReal(Stream(pre + a + "." + b + rest, true))
      == (DigitsValue(a) as real + DigitsValue(b) as real / Pow10(|b|) as real, Stream(rest, true))
  {
    var u := "." + b + rest;
    assert pre + a + "." + b + rest == pre + (a + u);
    assert (a + u)[0] == if a != [] then a[0] else '.';
    SkipSpaces(pre, a + u);
    ReadRealDigits(Stream(pre + a + "." + b + rest, true), a, b, rest);
  }

  lemma {:induction false} ReadRealDigits(st: Stream, a: string, b: string, rest: string)
    requires st.good && AllDigits(a) && AllDigits(b) && (a != [] || b != [])
    requires rest == [] || !IsDigit(rest[0])
    requires SkipSpace(st.rest) == a + ("." + b + rest)
    ensures ReadReal(st) == (DigitsValue(a) as real + DigitsValue(b) as real / Pow10(|b|) as real, Stream(rest, true))
  {
    var whole := DigitsValue(a) as real;
    var frac := DigitsValue(b) as real / Pow10(|b|) as real;
    RealTextParts(a, b, rest);
    ReadRealOfParts(st, |a|, |b|, whole, frac, rest);
  }

  /** Where the sign, the digit runs and the point of the text "A.B" lie. */
  lemma {:induction false} RealTextParts(a: string, b: string, rest: string)
    requires AllDigits(a) && AllDigits(b)
    requires rest == [] || !IsDigit(rest[0])
    ensures var x := a + ("." + b + rest);
      && SignLength(x) == 0 && DigitRun(x) == |a| && x[..|a|] == a
      && x[|a|..] != [] && x[|a|..][0] == '.'
      && var f := x[|a|..][1..];
      && DigitRun(f) == |b| && f[..|b|] == b && f[|b|..] == rest
  {
    var u := "." + b + rest;
    var x := a + u;
    DigitRunOf(a, u);
    assert x[..|a|] == a && x[|a|..] == u;
    if a != [] {
      assert x[0] == a[0] && IsDigit(a[0]);
    } else {
      assert x[0] == '.';
    }
    assert SignLength(x) == 0;
    FractionDigits(b, rest);
  }

  /** `ReadReal` once the sign, digit runs and point of the text have been located. */
  lemma ReadRealOfParts(st: Stream, n: nat, m: nat, whole: real, frac: real, rest: string)
    requires st.good && SignLength(SkipSpace(st.rest)) == 0
    requires var x := SkipSpace(st.rest);
      && DigitRun(x) == n && n <= |x| && whole == DigitsValue(x[..n]) as real
      && x[n..] != [] && x[n..][0] == '.'
      && var f := x[n..][1..];
      && DigitRun(f) == m && m <= |f| && frac == DigitsValue(f[..m]) as real / Pow10(m) as real
      && f[m..] == rest
    requires n + m != 0
    ensures ReadReal(st) == (whole + frac, Stream(rest, true))
  {
    assert SkipSpace(st.rest)[0..] == SkipSpace(st.rest);
  }

  lemma {:induction false} FractionDigits(b: string, rest: string)
    requires AllDigits(b)
    requires rest == [] || !IsDigit(rest[0])
    ensures var f := ("." + b + rest)[1..];
      f == b + rest && DigitRun(f) == |b| && f[..|b|] == b && f[|b|..] == rest
  {
    assert ("." + b + rest)[1..] == b + rest;
    DigitRunOf(b, rest);
    assert (b + rest)[..|b|] == b && (b + rest)[|b|..] == rest;
  }

  /** Reading a float from a run of digits with no point gives its value. */
  lemma {:induction false} ReadRealWhole(pre: string, a: string, rest: string)
    requires forall i :: 0 <= i < |pre| ==> IsSpace(pre[i])
    requires a != [] && AllDigits(a)
    requires rest == [] || (!IsDigit(rest[0]) && rest[0] != '.')
    ensures ReadReal(Stream(pre + a + rest, true)) == (DigitsValue(a) as real, Stream(rest, true))
  {
    var x := a + rest;
    assert pre + a + rest == pre + x;
    assert x[0] == a[0];
    SkipSpaces(pre, x);
    assert SignLength(x) == 0 && x[0..] == x;
    DigitRunOf(a, rest);
    assert x[..|a|] == a && x[|a|..] == rest;
  }

  /** Reading a word from text that starts with it, after any white space, gives the
      word and leaves the text behind it. */
  lemma {:induction false} ReadWordOf(pre: string, w: string, rest: string)
    requires forall i :: 0 <= i < |pre| ==> IsSpace(pre[i])
    requires w != [] && NoSpace(w)
    requires rest == [] || IsSpace(rest[0])
    ensures ReadWord(Stream(pre + w + rest, true)) == (w, Stream(rest, true))
  {
    SkipSpaces(pre, w + rest);
    assert pre + w + rest == pre + (w + rest);
    WordLengthOf(w, rest);
  }

  lemma {:induction false} SkipSpaces(pre: string, s: string)
    requires forall i :: 0 <= i < |pre| ==> IsSpace(pre[i])
    requires s == [] || !IsSpace(s[0])
    ensures SkipSpace(pre + s) == s
  {
    if pre != [] {
      assert (pre + s)[1..] == pre[1..] + s;
      SkipSpaces(pre[1..], s);
    }
  }

  lemma {:induction false} WordLengthOf(w: string, rest: string)
    requires NoSpace(w)
    requires rest == [] || IsSpace(rest[0])
    ensures WordLength(w + rest) == |w|
  {
    if w != [] {
      assert (w + rest)[1..] == w[1..] + rest;
      WordLengthOf(w[1..], rest);
    }
  }

  lemma {:induction false} DigitRunOf(d: string, rest: string)
    requires AllDigits(d)
    requires rest == [] || !IsDigit(rest[0])
    ensures DigitRun(d + rest) == |d|
  {
    if d != [] {
      assert (d + rest)[1..] == d[1..] + rest;
      DigitRunOf(d[1..], rest);
    }
  }

  /** Reading an unsigned number from text that starts with its decimal digits (after
      white space) gives the number back and leaves the text behind it. */
  lemma {:induction false} ReadUnsignedOf(pre: string, n: nat, rest: string)
    requires forall i :: 0 <= i < |pre| ==> IsSpace(pre[i])
    requires n <= MaxU32
    requires rest == [] || IsSpace(rest[0])
    ensures ReadUnsigned(Stream(pre + Decimal(n) + rest, true)) == (n, Stream(rest, true))
  {
    ReadUnsignedText(pre, Decimal(n), rest);
  }

  lemma {:induction false} ReadUnsignedText(pre: string, d: string, rest: string)
    requires forall i :: 0 <= i < |pre| ==> IsSpace(pre[i])
    requires d != [] && AllDigits(d) && DigitsValue(d) <= MaxU32
    requires rest == [] || IsSpace(rest[0])
    ensures ReadUnsigned(Stream(pre + d + rest, true)) == (DigitsValue(d), Stream(rest, true))
  {
    SkipSpacesBefore(pre, d, rest);
    ReadUnsignedDigits(Stream(pre + d + rest, true), d, rest);
  }

  lemma {:induction false} SkipSpacesBefore(pre: string, w: string, rest: string)
    requires forall i :: 0 <= i < |pre| ==> IsSpace(pre[i])
    requires w != [] && !IsSpace(w[0])
    ensures SkipSpace(pre + w + rest) == w + rest
  {
    SkipSpaces(pre, w + rest);
    assert pre + w + rest == pre + (w + rest);
  }

  lemma {:induction false} ReadUnsignedDigits(st: Stream, d: string, rest: string)
    requires st.good && d != [] && AllDigits(d) && DigitsValue(d) <= MaxU32
    requires rest == [] || IsSpace(rest[0])
    requires SkipSpace(st.rest) == d + rest
    ensures ReadUnsigned(st) == (DigitsValue(d), Stream(rest, true))
  {
    var s := d + rest;
    assert IsDigit(s[0]);
    assert SignLength(s) == 0;
    assert s[0..] == s;
    DigitRunOf(d, rest);
    assert s[..|d|] == d;
    assert s[|d|..] == rest;
  }

  /** `lexical_cast` reads back a zero-padded decimal field. */
  lemma LexicalCastZeroPad(n: nat, width: nat)
    requires n <= MaxU32
    ensures LexicalCast(ZeroPad(n, width)) == Some(n)
  {
    ZeroPadValue(n, width);
    assert IsDigit(ZeroPad(n, width)[0]);
  }

  /** Three words separated by single spaces are read back one by one. */
  lemma {:induction false} ReadThreeWords(a: string, b: string, c: string)
    requires a != [] && NoSpace(a) && b != [] && NoSpace(b) && c != [] && NoSpace(c)
    ensures var (w1, s1) := ReadWord(Stream(a + " " + b + " " + c, true));
      var (w2, s2) := ReadWord(s1);
      var (w3, s3) := ReadWord(s2);
      w1 == a && w2 == b && w3 == c && s1.good && s2.good && s3 == Stream([], true)
  {
    var t2 := " " + c;
    var t1 := " " + b + t2;
    assert a + " " + b + " " + c == "" + a + t1;
    ReadWordOf("", a, t1);
    ReadWordOf(" ", b, t2);
    assert t2 == " " + c + "";
    ReadWordOf(" ", c, "");
  }

  /** A leading space does not change what a word extraction reads. */
  lemma ReadWordAfterSpace(t: string)
    ensures ReadWord(Stream(" " + t, true)) == ReadWord(Stream(t, true))
  {
    assert (" " + t)[1..] == t;
  }
}
