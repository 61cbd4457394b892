/** The few pieces of Python's `str` behaviour the configuration parser and the
    filename code rely on: whitespace, strip/split, ASCII lower-casing, decimal
    formatting with zero padding and `int()` on a decimal field. */
module Text {
  import opened Wrappers

  /** Python's `str.isspace()`: the separators of `split()` and `strip()`. */
  predicate IsSpace(c: char) {
    c == ' ' || ('\t' <= c <= '\r') || ('\U{1c}' <= c <= '\U{1f}') || c == '\U{85}' || c == '\U{a0}'
    || c == '\U{1680}' || ('\U{2000}' <= c <= '\U{200a}') || c == '\U{2028}' || c == '\U{2029}'
    || c == '\U{202f}' || c == '\U{205f}' || c == '\U{3000}'
  }

  /** Python's truth value of a string that may be `None`: present and non-empty. */
  predicate Truthy(o: Option<string>) {
    o.Some? && o.value != ""
  }

  predicate NoSpace(s: string) {
    forall i :: 0 <= i < |s| ==> !IsSpace(s[i])
  }

  predicate AllSpace(s: string) {
    forall i :: 0 <= i < |s| ==> IsSpace(s[i])
  }

  /** `s.lstrip()`: drops the leading whitespace, and nothing else. */
  function LStrip(s: string): (r: string)
    ensures |r| <= |s| && r == s[|s| - |r|..]
    ensures AllSpace(s[..|s| - |r|])
    ensures r == [] || !IsSpace(r[0])
  {
    if s != [] && IsSpace(s[0]) then
      var r := LStrip(s[1..]);
      LStripStep(s, r);
      r
    else s
  }

  lemma LStripStep(s: string, r: string)
    requires s != [] && IsSpace(s[0])
    requires |r| <= |s| - 1 && r == s[1..][|s| - 1 - |r|..] && AllSpace(s[1..][..|s| - 1 - |r|])
    ensures r == s[|s| - |r|..] && AllSpace(s[..|s| - |r|])
  {
    assert s[..|s| - |r|] == [s[0]] + s[1..][..|s| - 1 - |r|];
  }

  /** `s.rstrip(chars)`: drops the trailing characters that satisfy `drop`. */
  function TrimEnd(s: string, drop: char -> bool): (r: string)
    ensures |r| <= |s| && r == s[..|r|]
    ensures forall i :: |r| <= i < |s| ==> drop(s[i])
    ensures r == [] || !drop(r[|r| - 1])
  {
    if s != [] && drop(s[|s| - 1]) then TrimEnd(s[..|s| - 1], drop) else s
  }

  /** `s.rstrip()`. */
  function RStrip(s: string): (r: string)
    ensures |r| <= |s| && r == s[..|r|] && AllSpace(s[|r|..])
    ensures r == [] || !IsSpace(r[|r| - 1])
  {
    TrimEnd(s, IsSpace)
  }

  predicate IsNewline(c: char) {
    c == '\r' || c == '\n'
  }

  /** `s.rstrip("\r\n")`. */
  function RStripNewlines(s: string): (r: string)
    ensures |r| <= |s| && r == s[..|r|]
    ensures forall i :: |r| <= i < |s| ==> IsNewline(s[i])
    ensures r == [] || !IsNewline(r[|r| - 1])
  {
    TrimEnd(s, IsNewline)
  }

  /** The length of the leading run of non-whitespace characters. */
  function WordEnd(s: string): (n: nat)
    ensures n <= |s| && NoSpace(s[..n])
    ensures n < |s| ==> IsSpace(s[n])
  {
    if s == [] || IsSpace(s[0]) then 0
    else
      var n := 1 + WordEnd(s[1..]);
      assert s[..n] == [s[0]] + s[1..][..n - 1];
      n
  }

  /** `s.split(maxsplit=1)`: the first whitespace-separated word, and the rest of
      the string after the whitespace that follows it, if any rest remains. */
  function Split1(s: string): (parts: seq<string>)
    ensures |parts| <= 2
    ensures parts == [] <==> AllSpace(s)
    ensures forall i :: 0 <= i < |parts| ==> parts[i] != []
    ensures |parts| >= 1 ==> NoSpace(parts[0])
    ensures |parts| == 2 ==> !IsSpace(parts[1][0])
  {
    LStripEmpty(s);
    SplitWord(LStrip(s))
  }

  /** Only whitespace strips away to nothing. */
  lemma LStripEmpty(s: string)
    ensures LStrip(s) == [] <==> AllSpace(s)
  {
    var t := LStrip(s);
    if t != [] {
      assert s[|s| - |t|] == t[0];
    } else {
      assert s == s[..|s| - |t|];
    }
  }

  /** The split of a string that starts with a word, if anything. */
  function SplitWord(t: string): (parts: seq<string>)
    requires t == [] || !IsSpace(t[0])
    ensures |parts| <= 2
    ensures parts == [] <==> t == []
    ensures forall i :: 0 <= i < |parts| ==> parts[i] != []
    ensures |parts| >= 1 ==> NoSpace(parts[0])
    ensures |parts| == 2 ==> !IsSpace(parts[1][0])
  {
    if t == [] then []
    else
      var n := WordEnd(t);
      var rest := LStrip(t[n..]);
      if rest == [] then [t[..n]] else [t[..n], rest]
  }

  /** Splitting a word followed by a separator and a remainder gives back the word
      and the remainder; a word with only whitespace after it splits to itself. */
  lemma {:induction false} Split1OfWords(w: string, sep: string, rest: string)
    requires w != [] && NoSpace(w)
    requires AllSpace(sep)
    requires rest == [] || (sep != [] && !IsSpace(rest[0]))
    ensures Split1(w + sep + rest) == if rest == [] then [w] else [w, rest]
  {
    var s := w + sep + rest;
    assert s[0] == w[0];
    assert LStrip(s) == s;
    SplitWordOf(w, sep, rest);
  }

  lemma SplitWordOf(w: string, sep: string, rest: string)
    requires w != [] && NoSpace(w)
    requires AllSpace(sep)
    requires rest == [] || (sep != [] && !IsSpace(rest[0]))
    ensures (w + sep + rest)[0] == w[0]
    ensures SplitWord(w + sep + rest) == if rest == [] then [w] else [w, rest]
  {
    var s := w + sep + rest;
    assert s == w + (sep + rest);
    WordEndOf(w, sep + rest);
    assert s[|w|..] == sep + rest;
    LStripOf(sep, rest);
    assert s[..|w|] == w;
  }

  lemma {:induction false} WordEndOf(w: string, tail: string)
    requires NoSpace(w)
    requires tail == [] || IsSpace(tail[0])
    ensures WordEnd(w + tail) == |w|
  {
    if w != [] {
      assert (w + tail)[1..] == w[1..] + tail;
      WordEndOf(w[1..], tail);
    } else {
      assert w + tail == tail;
    }
  }

  lemma {:induction false} LStripOf(sp: string, rest: string)
    requires AllSpace(sp)
    requires rest == [] || !IsSpace(rest[0])
    ensures LStrip(sp + rest) == rest
  {
    if sp != [] {
      assert (sp + rest)[1..] == sp[1..] + rest;
      LStripOf(sp[1..], rest);
    } else {
      assert sp + rest == rest;
    }
  }

  /** The index of the first occurrence of `c` in `s`, if any. */
  function IndexOf(s: string, c: char): (r: Option<nat>)
    ensures r.Some? ==> r.value < |s| && s[r.value] == c && c !in s[..r.value]
    ensures r.None? ==> c !in s
  {
    if s == [] then None
    else if s[0] == c then Some(0)
    else match IndexOf(s[1..], c)
      case None => None
      case Some(k) =>
        assert s[..k + 1] == [s[0]] + s[1..][..k];
        Some(k + 1)
  }

  /** `s.split(c, maxsplit=1)`. */
  function SplitOnce(s: string, c: char): (parts: seq<string>)
    ensures c !in s ==> parts == [s]
    ensures c in s ==> |parts| == 2 && c !in parts[0] && s == parts[0] + [c] + parts[1]
  {
    match IndexOf(s, c)
    case None => [s]
    case Some(k) =>
      assert s == s[..k] + [c] + s[k + 1..];
      [s[..k], s[k + 1..]]
  }

  /** `s.split(c)`: the fields between every occurrence of `c`. */
  function SplitAll(s: string, c: char): (fields: seq<string>)
    ensures |fields| >= 1
    ensures c !in s ==> fields == [s]
    ensures forall i :: 0 <= i < |fields| ==> c !in fields[i]
    decreases |s|
  {
    match IndexOf(s, c)
    case None => [s]
    case Some(k) => [s[..k]] + SplitAll(s[k + 1..], c)
  }

  lemma {:induction false} IndexOfFirst(head: string, c: char, tail: string)
    requires c !in head
    ensures IndexOf(head + [c] + tail, c) == Some(|head|)
  {
    var s := head + [c] + tail;
    if head != [] {
      assert s[0] == head[0];
      assert s[1..] == head[1..] + [c] + tail;
      IndexOfFirst(head[1..], c, tail);
    }
  }

  /** Splitting text whose first field is `head` gives `head` first. */
  lemma SplitAllHead(head: string, c: char, tail: string)
    requires c !in head
    ensures SplitAll(head + [c] + tail, c) == [head] + SplitAll(tail, c)
  {
    var s := head + [c] + tail;
    IndexOfFirst(head, c, tail);
    assert s[..|head|] == head;
    assert s[|head| + 1..] == tail;
  }

  /** Python's `str.lower()` on ASCII letters; other characters are kept. */
  function LowerChar(c: char): (r: char)
    ensures 'A' <= c <= 'Z' ==> 'a' <= r <= 'z'
    ensures !('A' <= c <= 'Z') ==> r == c
  {
    if 'A' <= c <= 'Z' then (c as int - 'A' as int + 'a' as int) as char else c
  }

  function Lower(s: string): (r: string)
    ensures |r| == |s|
    ensures forall i :: 0 <= i < |s| ==> r[i] == LowerChar(s[i])
  {
    if s == [] then [] else [LowerChar(s[0])] + Lower(s[1..])
  }

  /** Lower-casing twice is lower-casing once. */
  lemma LowerIdempotent(s: string)
    ensures Lower(Lower(s)) == Lower(s)
  {
  }

  predicate IsDigit(c: char) {
    '0' <= c <= '9'
  }

  predicate AllDigits(s: string) {
    forall i :: 0 <= i < |s| ==> IsDigit(s[i])
  }

  function DigitChar(d: nat): (c: char)
    requires d < 10
    ensures IsDigit(c) && c as int - '0' as int == d
  {
    ('0' as int + d) as char
  }

  /** The number a string of decimal digits denotes. */
  function DigitsValue(s: string): nat
    requires AllDigits(s)
  {
    if s == [] then 0 else DigitsValue(s[..|s| - 1]) * 10 + (s[|s| - 1] as int - '0' as int)
  }

  /** `'%d' % n` for a natural number: decimal, no leading zeros. */
  function NatToDecimal(n: nat): (s: string)
    ensures s != [] && AllDigits(s)
    ensures |s| > 1 ==> s[0] != '0'
    decreases n
  {
    if n < 10 then [DigitChar(n)] else NatToDecimal(n / 10) + [DigitChar(n % 10)]
  }

  function Zeros(k: nat): (z: string)
    ensures |z| == k && forall i :: 0 <= i < k ==> z[i] == '0'
  {
    seq(k, _ => '0')
  }

  /** `'%0*d' % (width, n)`: decimal with zeros in front up to `width` characters. */
  function ZeroPad(n: nat, width: nat): (s: string)
    ensures AllDigits(s)
    ensures |s| == if |NatToDecimal(n)| < width then width else |NatToDecimal(n)|
  {
    var digits := NatToDecimal(n);
    if |digits| < width then Zeros(width - |digits|) + digits else digits
  }

  lemma {:induction false} NatToDecimalValue(n: nat)
    ensures DigitsValue(NatToDecimal(n)) == n
    decreases n
  {
    if n >= 10 {
      var s := NatToDecimal(n);
      assert s[..|s| - 1] == NatToDecimal(n / 10);
      NatToDecimalValue(n / 10);
    }
  }

  lemma {:induction false} LeadingZeroValue(s: string)
    requires AllDigits(s)
    ensures AllDigits(['0'] + s) && DigitsValue(['0'] + s) == DigitsValue(s)
  {
    var t := ['0'] + s;
    if s != [] {
      assert t[..|t| - 1] == ['0'] + s[..|s| - 1];
      LeadingZeroValue(s[..|s| - 1]);
    }
  }

  lemma {:induction false} ZerosValue(k: nat, s: string)
    requires AllDigits(s)
    ensures AllDigits(Zeros(k) + s) && DigitsValue(Zeros(k) + s) == DigitsValue(s)
  {
    if k > 0 {
      var z := Zeros(k - 1) + s;
      assert Zeros(k) + s == ['0'] + z;
      ZerosValue(k - 1, s);
      LeadingZeroValue(z);
    } else {
      assert Zeros(k) + s == s;
    }
  }

  /** A zero-padded number reads back as the number it was made from. */
  lemma ZeroPadValue(n: nat, width: nat)
    ensures DigitsValue(ZeroPad(n, width)) == n
  {
    var digits := NatToDecimal(n);
    NatToDecimalValue(n);
    if |digits| < width {
      ZerosValue(width - |digits|, digits);
      assert ZeroPad(n, width) == Zeros(width - |digits|) + digits;
    } else {
      assert ZeroPad(n, width) == digits;
    }
  }

  /** `field[i..j]` holds the decimal digits of `n`, with only whitespace
      after them and only whitespace, then at most one `+`, before them. */
  predicate DigitsAt(field: string, i: nat, j: nat, n: nat) {
    && i < j <= |field| && AllDigits(field[i..j]) && n == DigitsValue(field[i..j])
    && AllSpace(field[j..])
    && (AllSpace(field[..i]) || (i > 0 && field[i - 1] == '+' && AllSpace(field[..i - 1])))
  }

  /** Python's `int(field)` on a field that holds no `-`: surrounding whitespace
      and an optional `+` are accepted, then one or more decimal digits. */
  function ParseInt(field: string): Option<nat> {
    ParseStripped(RStrip(LStrip(field)))
  }

  /** `int()` once the whitespace is gone: an optional `+`, then digits. */
  function ParseStripped(t: string): Option<nat> {
    var body := if t != [] && t[0] == '+' then t[1..] else t;
    if body != [] && AllDigits(body) then Some(DigitsValue(body)) else None
  }

  /** A number `int()` accepts is the value of a run of digits in the field,
      with only whitespace around it and at most one `+` in front. */
  lemma ParseIntDigits(field: string)
    ensures ParseInt(field).Some? ==> exists i, j :: DigitsAt(field, i, j, ParseInt(field).value)
  {
    var t := RStrip(LStrip(field));
    var body := if t != [] && t[0] == '+' then t[1..] else t;
    if body != [] && AllDigits(body) {
      ParseIntWitness(field, t, body);
    }
  }

  lemma ParseIntWitness(field: string, t: string, body: string)
    requires t == RStrip(LStrip(field))
    requires body == if t != [] && t[0] == '+' then t[1..] else t
    requires body != [] && AllDigits(body)
    ensures exists i, j :: DigitsAt(field, i, j, DigitsValue(body))
  {
    var l := LStrip(field);
    var a := |field| - |l|;
    var before, after := field[..a], l[|t|..];
    assert field == before + l;
    assert l == t + after;
    DigitsAround(before, t, after, body);
  }

  /** Whitespace, a stripped number and whitespace hold the number's digits. */
  lemma DigitsAround(before: string, t: string, after: string, body: string)
    requires AllSpace(before) && AllSpace(after)
    requires body == if t != [] && t[0] == '+' then t[1..] else t
    requires body != [] && AllDigits(body)
    ensures exists i, j :: DigitsAt(before + (t + after), i, j, DigitsValue(body))
  {
    var f := before + (t + after);
    var i, j := |before|, |before| + |t|;
    assert f[i..j] == t && f[j..] == after && f[..i] == before;
    if |body| < |t| {
      assert f[i] == '+' && f[i + 1..j] == body;
      assert DigitsAt(f, i + 1, j, DigitsValue(body));
    } else {
      assert DigitsAt(f, i, j, DigitsValue(body));
    }
  }


  /** Dropping trailing characters stops at the last one that is kept. */
  lemma {:induction false} TrimEndOf(x: string, tail: string, drop: char -> bool)
    requires x == [] || !drop(x[|x| - 1])
    requires forall i :: 0 <= i < |tail| ==> drop(tail[i])
    ensures TrimEnd(x + tail, drop) == x
    decreases |tail|
  {
    if tail != [] {
      assert (x + tail)[..|x + tail| - 1] == x + tail[..|tail| - 1];
      TrimEndOf(x, tail[..|tail| - 1], drop);
    } else {
      assert x + tail == x;
    }
  }

  /** `int()` of whitespace, an optional `+`, decimal digits and whitespace is
      the number the digits denote: the converse of `ParseInt`'s contract. */
  lemma ParseIntOfDigits(before: string, sign: string, digits: string, after: string)
    requires AllSpace(before) && AllSpace(after) && (sign == "" || sign == "+")
    requires digits != [] && AllDigits(digits)
    ensures ParseInt(before + sign + digits + after) == Some(DigitsValue(digits))
  {
    StripAroundNumber(before, sign, digits, after);
    ParseSigned(sign, digits);
  }

  lemma StripAroundNumber(before: string, sign: string, digits: string, after: string)
    requires AllSpace(before) && AllSpace(after) && (sign == "" || sign == "+")
    requires digits != [] && AllDigits(digits)
    ensures RStrip(LStrip(before + sign + digits + after)) == sign + digits
  {
    var core := sign + digits;
    assert before + sign + digits + after == before + core + after;
    assert core[|core| - 1] == digits[|digits| - 1];
    if sign == "+" {
      assert core[0] == '+';
    } else {
      assert core == digits;
      assert IsDigit(digits[0]);
    }
    StripOfCore(before, core, after);
  }

  lemma ParseSigned(sign: string, digits: string)
    requires sign == "" || sign == "+"
    requires digits != [] && AllDigits(digits)
    ensures ParseStripped(sign + digits) == Some(DigitsValue(digits))
  {
    var t := sign + digits;
    if sign == "+" {
      assert t[0] == '+' && t[1..] == digits;
    } else {
      assert t == digits;
      assert IsDigit(digits[0]) && t[0] != '+';
    }
  }

  /** Surrounding whitespace comes off a core that neither starts nor ends with it. */
  lemma StripOfCore(before: string, core: string, after: string)
    requires AllSpace(before) && AllSpace(after)
    requires core != [] && !IsSpace(core[0]) && !IsSpace(core[|core| - 1])
    ensures RStrip(LStrip(before + core + after)) == core
  {
    assert before + core + after == before + (core + after);
    LStripOf(before, core + after);
    TrimEndOf(core, after, IsSpace);
  }


  /** `int()` undoes zero-padded formatting. */
  lemma ParseIntZeroPad(n: nat, width: nat)
    ensures ParseInt(ZeroPad(n, width)) == Some(n)
  {
    var s := ZeroPad(n, width);
    assert s != [] by { assert |NatToDecimal(n)| >= 1; }
    assert "" + "" + s + "" == s;
    ParseIntOfDigits("", "", s, "");
    ZeroPadValue(n, width);
  }
}
