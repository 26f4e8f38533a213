/** The string operations the validator relies on, each given a definition in
    Dafny's terms together with the property that makes it trustworthy. */
module Text {
  import Seqs
  import Wrappers

  // ---------------------------------------------------------------------------
  // Substring search: `String.prototype.includes`

  /** `p` is a prefix of `s`. */
  predicate IsPrefix(p: string, s: string) {
    |p| <= |s| && s[..|p|] == p
  }

  /** `p` occurs in `s` starting at index `i`. */
  ghost predicate OccursAt(s: string, p: string, i: int) {
    0 <= i && i + |p| <= |s| && s[i..i + |p|] == p
  }

  /** `s.includes(p)`, computed by trying every start position from the left. */
  predicate Includes(s: string, p: string)
    decreases |s|
  {
    IsPrefix(p, s) || (|s| > 0 && Includes(s[1..], p))
  }

  /** The scan finds `p` exactly when `p` occurs somewhere in `s`. */
  lemma {:induction false} IncludesIffOccurs(s: string, p: string)
    ensures Includes(s, p) <==> exists i :: OccursAt(s, p, i)
    decreases |s|
  {
    if IsPrefix(p, s) {
      assert OccursAt(s, p, 0);
    } else if |s| > 0 {
      IncludesIffOccurs(s[1..], p);
      forall i | OccursAt(s, p, i) && i > 0
        ensures OccursAt(s[1..], p, i - 1)
      {
        assert s[1..][i - 1..i - 1 + |p|] == s[i..i + |p|];
      }
      if Includes(s[1..], p) {
        var i :| OccursAt(s[1..], p, i);
        assert s[1..][i..i + |p|] == s[i + 1..i + 1 + |p|];
        assert OccursAt(s, p, i + 1);
      }
    }
  }

  /** A non-empty needle whose first character never appears in `s` is not included. */
  lemma {:induction false} NotIncludedWithoutFirstChar(s: string, p: string)
    requires |p| > 0 && p[0] !in s
    ensures !Includes(s, p)
    decreases |s|
  {
    if |s| > 0 {
      assert s[0] != p[0];
      NotIncludedWithoutFirstChar(s[1..], p);
    }
  }

  // ---------------------------------------------------------------------------
  // Decimal rendering of integers, as `String(n)` produces for whole numbers

  predicate IsDigit(c: char) {
    '0' <= c <= '9'
  }

  predicate AllDigits(s: string) {
    forall i :: 0 <= i < |s| ==> IsDigit(s[i])
  }

  function DigitChar(d: int): (c: char)
    requires 0 <= d < 10
    ensures IsDigit(c)
  {
    ('0' as int + d) as char
  }

  function DigitValue(c: char): (d: int)
    requires IsDigit(c)
    ensures 0 <= d < 10
  {
    c as int - '0' as int
  }

  /** The shortest decimal numeral of `n`. */
  function NatToString(n: nat): (r: string)
    ensures |r| > 0 && AllDigits(r)
    ensures r[0] == '0' ==> n == 0
    decreases n
  {
    if n < 10 then [DigitChar(n)] else NatToString(n / 10) + [DigitChar(n % 10)]
  }

  /** Reads back a decimal numeral, most significant digit first. */
  function ParseNat(s: string): nat
    requires AllDigits(s)
    decreases |s|
  {
    if |s| == 0 then 0 else ParseNat(s[..|s| - 1]) * 10 + DigitValue(s[|s| - 1])
  }

  lemma {:induction false} NatToStringRoundTrip(n: nat)
    ensures ParseNat(NatToString(n)) == n
    decreases n
  {
    if n >= 10 {
      NatToStringRoundTrip(n / 10);
      var r := NatToString(n);
      assert r[..|r| - 1] == NatToString(n / 10);
    }
  }

  /** `String(i)` for a whole number `i`: a minus sign for negatives, then the digits. */
  function IntToString(i: int): string {
    if i < 0 then "-" + NatToString(-i) else NatToString(i)
  }

  /** An optional minus sign followed by at least one digit. */
  predicate IsDecimal(s: string) {
    if |s| > 0 && s[0] == '-' then |s| > 1 && AllDigits(s[1..]) else |s| > 0 && AllDigits(s)
  }

  function ParseInt(s: string): int
    requires IsDecimal(s)
  {
    if s[0] == '-' then 0 - ParseNat(s[1..]) as int else ParseNat(s) as int
  }

  /** A decimal numeral without leading zeros and without "-0": the digits
      start with `0` only when they are exactly "0", and then carry no sign. */
  predicate IsCanonicalDecimal(s: string) {
    IsDecimal(s) &&
    (if s[0] == '-' then s[1] != '0' else s[0] == '0' ==> s == "0")
  }

  /** Every rendered integer is a canonical decimal numeral that reads back to the same integer. */
  lemma IntToStringRoundTrip(i: int)
    ensures IsCanonicalDecimal(IntToString(i))
    ensures ParseInt(IntToString(i)) == i
  {
    var r := IntToString(i);
    if i < 0 {
      assert r[1..] == NatToString(-i);
      NatToStringRoundTrip(-i);
    } else {
      NatToStringRoundTrip(i);
      if r[0] == '0' {
        assert i == 0;
        assert r == [DigitChar(0)];
      }
    }
  }

  /** Digits that do not start with `0` read back as a positive number. */
  lemma {:induction false} ParseNatPositive(s: string)
    requires |s| > 0 && AllDigits(s) && s[0] != '0'
    ensures ParseNat(s) >= 1
    decreases |s|
  {
    if |s| > 1 {
      ParseNatPositive(s[..|s| - 1]);
    }
  }

  /** A digit string without a leading zero is the rendering of its own value. */
  lemma {:induction false} CanonicalNatUnique(s: string)
    requires |s| > 0 && AllDigits(s) && (s[0] == '0' ==> |s| == 1)
    ensures s == NatToString(ParseNat(s))
    decreases |s|
  {
    var n := ParseNat(s);
    if |s| == 1 {
      assert s[..|s| - 1] == "";
      assert ParseNat(s[..|s| - 1]) == 0;
      assert n == DigitValue(s[0]);
      assert DigitChar(DigitValue(s[0])) == s[0];
    } else {
      var prefix := s[..|s| - 1];
      CanonicalNatUnique(prefix);
      ParseNatPositive(prefix);
      var m := ParseNat(prefix);
      var d := DigitValue(s[|s| - 1]);
      assert n == m * 10 + d;
      assert n / 10 == m && n % 10 == d;
      assert DigitChar(d) == s[|s| - 1];
      assert NatToString(n) == NatToString(m) + [DigitChar(d)];
      assert s == prefix + [s[|s| - 1]];
    }
  }

  /** The canonical numeral of an integer is unique: any canonical numeral is
      exactly `String` of the integer it denotes. */
  lemma CanonicalDecimalUnique(s: string)
    requires IsCanonicalDecimal(s)
    ensures s == IntToString(ParseInt(s))
  {
    if s[0] == '-' {
      var digits := s[1..];
      CanonicalNatUnique(digits);
      ParseNatPositive(digits);
      assert s == "-" + digits;
    } else {
      CanonicalNatUnique(s);
    }
  }

  // ---------------------------------------------------------------------------
  // `Array.prototype.join` and its inverse for one-character separators

  function Join(parts: seq<string>, sep: string): string
    decreases |parts|
  {
    if |parts| == 0 then "" else if |parts| == 1 then parts[0] else parts[0] + sep + Join(parts[1..], sep)
  }

  /** Cuts `s` at every occurrence of `c`; always yields at least one piece. */
  function Split(s: string, c: char): (pieces: seq<string>)
    ensures |pieces| > 0
    decreases |s|
  {
    if |s| == 0 then [""]
    else
      var rest := Split(s[1..], c);
      if s[0] == c then [""] + rest else [[s[0]] + rest[0]] + rest[1..]
  }

  lemma {:induction false} SplitWithout(p: string, c: char, rest: string)
    requires c !in p
    ensures Split(p + rest, c) == [p + Split(rest, c)[0]] + Split(rest, c)[1..]
    decreases |p|
  {
    if |p| > 0 {
      assert (p + rest)[1..] == p[1..] + rest;
      SplitWithout(p[1..], c, rest);
      assert [p[0]] + (p[1..] + Split(rest, c)[0]) == p + Split(rest, c)[0];
    } else {
      assert p + rest == rest;
      var pieces := Split(rest, c);
      assert p + pieces[0] == pieces[0];
      assert pieces == [pieces[0]] + pieces[1..];
    }
  }

  /** Joining with `c` followed by `pad`, then cutting at `c`, gives back the
      parts, each but the first preceded by `pad` — provided `c` occurs in no
      part and not in `pad`. */
  lemma {:induction false} SplitJoin(parts: seq<string>, c: char, pad: string)
    requires |parts| > 0
    requires c !in pad
    requires forall i :: 0 <= i < |parts| ==> c !in parts[i]
    ensures Split(Join(parts, [c] + pad), c) ==
            [parts[0]] + seq(|parts| - 1, i requires 0 <= i < |parts| - 1 => pad + parts[i + 1])
    decreases |parts|
  {
    var sep := [c] + pad;
    if |parts| == 1 {
      SplitWithout(parts[0], c, "");
      assert parts[0] + "" == parts[0];
    } else {
      var tail := parts[1..];
      SplitJoin(tail, c, pad);
      var j := Join(tail, sep);
      var x := [c] + (pad + j);
      assert Join(parts, sep) == parts[0] + x;
      SplitWithout(parts[0], c, x);
      assert x[1..] == pad + j;
      assert Split(x, c) == [""] + Split(pad + j, c);
      assert parts[0] + "" == parts[0];
      assert Split(Join(parts, sep), c) == [parts[0]] + Split(pad + j, c);
      SplitWithout(pad, c, j);
      var got := Split(pad + j, c);
      var want := seq(|parts| - 1, i requires 0 <= i < |parts| - 1 => pad + parts[i + 1]);
      assert |got| == |want|;
      forall i | 0 <= i < |want|
        ensures got[i] == want[i]
      {
        if i > 0 {
          assert got[i] == Split(j, c)[i];
        }
      }
      assert got == want;
    }
  }

  // ---------------------------------------------------------------------------
  // Character-level rewrites

  /** Path separator normalisation: every backslash becomes a forward slash,
      everything else is kept in place. */
  function Slash(path: string): (r: string)
    ensures |r| == |path|
    ensures '\\' !in r
    ensures forall i :: 0 <= i < |path| ==> r[i] == (if path[i] == '\\' then '/' else path[i])
  {
    seq(|path|, i requires 0 <= i < |path| => if path[i] == '\\' then '/' else path[i])
  }

  /** Normalising an already normalised path changes nothing. */
  lemma SlashIdempotent(path: string)
    ensures Slash(Slash(path)) == Slash(path)
  {
  }

  /** `text.replace(/\r/g, '')`: every carriage return is removed. */
  function Unixify(text: string): (r: string)
    ensures '\r' !in r
    ensures Seqs.IsSubsequence(r, text)
    ensures multiset(r) == multiset(text)['\r' := 0]
    ensures '\r' !in text ==> r == text
    decreases |text|
  {
    if |text| == 0 then ""
    else
      var rest := Unixify(text[1..]);
      assert text == [text[0]] + text[1..];
      if text[0] == '\r' then rest else [text[0]] + rest
  }

  function CountChar(s: string, c: char): nat
    decreases |s|
  {
    if |s| == 0 then 0 else (if s[0] == c then 1 else 0) + CountChar(s[1..], c)
  }

  /** `text.replace(/\n/g, '\\n')`: every line break becomes a backslash followed by `n`. */
  function EscapeNewlines(text: string): (r: string)
    ensures '\n' !in r
    ensures |r| == |text| + CountChar(text, '\n')
    ensures '\n' !in text ==> r == text
    decreases |text|
  {
    if |text| == 0 then ""
    else
      var rest := EscapeNewlines(text[1..]);
      assert text == [text[0]] + text[1..];
      if text[0] == '\n' then "\\n" + rest else [text[0]] + rest
  }

  /** Escaping works character by character: a line break becomes backslash
      and `n`, every other character stays as it is. */
  lemma EscapeNewlinesChar(c: char)
    ensures c == '\n' ==> EscapeNewlines([c]) == ['\\', 'n']
    ensures c != '\n' ==> EscapeNewlines([c]) == [c]
  {
    assert [c][1..] == "";
  }

  /** Escaping a concatenation escapes each part in place. */
  lemma {:induction false} EscapeNewlinesConcat(a: string, b: string)
    ensures EscapeNewlines(a + b) == EscapeNewlines(a) + EscapeNewlines(b)
    decreases |a|
  {
    if |a| == 0 {
      assert a + b == b;
    } else {
      assert (a + b)[0] == a[0];
      assert (a + b)[1..] == a[1..] + b;
      EscapeNewlinesConcat(a[1..], b);
    }
  }

  /** `text.substring(0, end)`, with `end` missing meaning "to the end"; the end is
      clamped into `0..|text|`. */
  function Substring0(text: string, end: Wrappers.Option<int>): (r: string)
    ensures IsPrefix(r, text)
    ensures end.None? ==> r == text
    ensures end.Some? && end.value <= 0 ==> r == ""
    ensures end.Some? && 0 <= end.value <= |text| ==> |r| == end.value
    ensures end.Some? && end.value >= |text| ==> r == text
  {
    match end
    case None => text
    case Some(n) => if n <= 0 then "" else if n >= |text| then text else text[..n]
  }
}
