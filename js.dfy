/** The JavaScript built-ins the contacts application calls, on `string` =
    `seq<char>`: truthiness of optional strings, `trim`, `replace` with a
    global one-character pattern, `split` and `join` on one character,
    number formatting in template literals, and the web platform's `File`.
    Beside them: `LastIndexOf`, the reference the rename is stated against,
    and a case-insensitive containment test standing for the database's
    `contains` with `mode: 'insensitive'`. */
module Js {

  datatype Option<+T> = None | Some(value: T)

  /** A web `File` as far as the application looks at it. */
  datatype File = File(name: string, size: nat, mimeType: string)

  /** JavaScript truthiness of a `string | null | undefined`: a missing value
      (None) and the empty string are both falsy. */
  predicate Truthy(o: Option<string>) {
    o.Some? && o.value != ""
  }

  /** `o || ''` */
  function OrEmpty(o: Option<string>): string {
    if o.Some? then o.value else ""
  }

  // ---------------------------------------------------------------------
  // trim

  /** The characters `String.prototype.trim` removes: ECMAScript WhiteSpace
      (TAB, VT, FF, SP, NBSP, ZWNBSP and the Unicode space separators) and
      LineTerminator (LF, CR, LS, PS). */
  predicate IsWhitespace(c: char) {
    c == '\t' || c == '\n' || c == '\U{000B}' || c == '\U{000C}' || c == '\r'
    || c == ' ' || c == '\U{00A0}' || c == '\U{1680}'
    || ('\U{2000}' <= c <= '\U{200A}')
    || c == '\U{2028}' || c == '\U{2029}' || c == '\U{202F}' || c == '\U{205F}'
    || c == '\U{3000}' || c == '\U{FEFF}'
  }

  predicate AllWhitespace(s: string) {
    forall k :: 0 <= k < |s| ==> IsWhitespace(s[k])
  }

  /** `trimStart`: drops the longest all-whitespace prefix. */
  function TrimStart(s: string): (r: string)
    ensures |r| <= |s| && r == s[|s| - |r|..]
    ensures AllWhitespace(s[..|s| - |r|])
    ensures r != [] ==> !IsWhitespace(r[0])
  {
    if s != [] && IsWhitespace(s[0]) then
      var r := TrimStart(s[1..]);
      TrimStartStep(s, r);
      r
    else s
  }

  lemma TrimStartStep(s: string, r: string)
    requires s != [] && IsWhitespace(s[0])
    requires |r| <= |s| - 1 && r == s[1..][|s| - 1 - |r|..] && AllWhitespace(s[1..][..|s| - 1 - |r|])
    ensures r == s[|s| - |r|..] && AllWhitespace(s[..|s| - |r|])
  {
    assert s[..|s| - |r|] == [s[0]] + s[1..][..|s| - 1 - |r|];
  }

  /** `trimEnd`: drops the longest all-whitespace suffix. */
  function TrimEnd(s: string): (r: string)
    ensures |r| <= |s| && r == s[..|r|]
    ensures AllWhitespace(s[|r|..])
    ensures r != [] ==> !IsWhitespace(r[|r| - 1])
  {
    if s != [] && IsWhitespace(s[|s| - 1]) then
      var r := TrimEnd(s[..|s| - 1]);
      TrimEndStep(s, r);
      r
    else s
  }

  lemma TrimEndStep(s: string, r: string)
    requires s != [] && IsWhitespace(s[|s| - 1])
    requires |r| <= |s| - 1 && r == s[..|s| - 1][..|r|] && AllWhitespace(s[..|s| - 1][|r|..])
    ensures r == s[..|r|] && AllWhitespace(s[|r|..])
  {
    assert s[|r|..] == s[..|s| - 1][|r|..] + [s[|s| - 1]];
  }

  /** `r` is `s[i..j]` and only whitespace lies outside it. */
  predicate TrimmedAt(s: string, r: string, i: int, j: int) {
    0 <= i <= j <= |s| && r == s[i..j] && AllWhitespace(s[..i]) && AllWhitespace(s[j..])
  }

  /** `trim`: the result is the slice of `s` left after dropping whitespace at
      both ends, and it neither starts nor ends with whitespace. */
  function Trim(s: string): (r: string)
    ensures exists i, j :: TrimmedAt(s, r, i, j)
    ensures r != [] ==> !IsWhitespace(r[0]) && !IsWhitespace(r[|r| - 1])
  {
    var t := TrimStart(s);
    var r := TrimEnd(t);
    TrimAt(s, t, r);
    r
  }

  /** Trimming the start of `s` to `t`, then the end of `t` to `r`, leaves
      `r` as a slice of `s` with only whitespace around it. */
  lemma TrimAt(s: string, t: string, r: string)
    requires |t| <= |s| && t == s[|s| - |t|..] && AllWhitespace(s[..|s| - |t|])
    requires |r| <= |t| && r == t[..|r|] && AllWhitespace(t[|r|..])
    ensures TrimmedAt(s, r, |s| - |t|, |s| - |t| + |r|)
    ensures r != [] ==> r[0] == t[0]
  {
    var i := |s| - |t|;
    assert r == s[i..i + |r|];
    assert s[i + |r|..] == t[|r|..];
  }

  /** `trim` only removes characters: one absent from `s` is absent from
      `trim(s)`. */
  lemma TrimKeeps(s: string, x: char)
    requires x !in s
    ensures x !in Trim(s)
  {
    var r := Trim(s);
    var i, j :| TrimmedAt(s, r, i, j);
    SliceKeeps(s, i, j, x);
  }

  lemma SliceKeeps(s: string, i: nat, j: nat, x: char)
    requires i <= j <= |s| && x !in s
    ensures x !in s[i..j]
  {
    assert forall k :: 0 <= k < j - i ==> s[i..j][k] == s[i + k];
  }

  /** `trim` yields the empty string exactly for all-whitespace input. */
  lemma TrimEmptyIff(s: string)
    ensures Trim(s) == "" <==> AllWhitespace(s)
  {
    var r := Trim(s);
    var i, j :| TrimmedAt(s, r, i, j);
    if r == "" {
      forall k | 0 <= k < |s| ensures IsWhitespace(s[k]) {
        if k < i { assert s[k] == s[..i][k]; } else { assert s[k] == s[j..][k - j]; }
      }
    }
  }

  // ---------------------------------------------------------------------
  // replace(/c/g, rep)

  /** The number of occurrences of `c` in `s`. */
  function Count<T(==)>(s: seq<T>, c: T): nat {
    if s == [] then 0 else (if s[0] == c then 1 else 0) + Count(s[1..], c)
  }

  /** `s.replace(/c/g, rep)` for a one-character pattern `c` and a
      replacement without `$` patterns: every `c`, left to right, becomes
      `rep`; nothing else changes. */
  function ReplaceAll(s: string, c: char, rep: string): (r: string)
    ensures |r| == |s| + Count(s, c) * (|rep| - 1)
    ensures c !in rep ==> c !in r
  {
    if s == [] then []
    else
      var t := ReplaceAll(s[1..], c, rep);
      if s[0] == c then
        MulSucc(Count(s[1..], c), |rep| - 1);
        rep + t
      else [s[0]] + t
  }

  lemma MulSucc(a: nat, k: int)
    ensures (a + 1) * k == a * k + k
  {
  }

  lemma {:induction false} ReplaceAllAppend(a: string, b: string, c: char, rep: string)
    ensures ReplaceAll(a + b, c, rep) == ReplaceAll(a, c, rep) + ReplaceAll(b, c, rep)
  {
    if a == [] {
      assert a + b == b;
    } else {
      assert (a + b)[1..] == a[1..] + b;
      ReplaceAllAppend(a[1..], b, c, rep);
    }
  }

  // ---------------------------------------------------------------------
  // split / join on one character, lastIndexOf

  /** `s.split(d)` for a one-character separator: the pieces between the
      occurrences of `d`; `"".split(d)` is `[""]`. */
  function Split(s: string, d: char): (r: seq<string>)
    ensures |r| == Count(s, d) + 1
    ensures forall k :: 0 <= k < |r| ==> d !in r[k]
  {
    if s == [] then [[]]
    else
      var t := Split(s[1..], d);
      if s[0] == d then [[]] + t else [[s[0]] + t[0]] + t[1..]
  }

  /** `parts.join(sep)`; `[].join(sep)` is `""`. The result starts with the
      first part and ends with the last. */
  function Join(parts: seq<string>, sep: string): (r: string)
    ensures parts == [] ==> r == ""
    ensures parts != [] ==> parts[0] <= r
    ensures parts != [] ==> |parts[|parts| - 1]| <= |r| && r[|r| - |parts[|parts| - 1]|..] == parts[|parts| - 1]
  {
    if parts == [] then ""
    else if |parts| == 1 then parts[0]
    else parts[0] + sep + Join(parts[1..], sep)
  }

  lemma JoinCons(x: string, rest: seq<string>, sep: string)
    requires rest != []
    ensures Join([x] + rest, sep) == x + sep + Join(rest, sep)
  {
    assert ([x] + rest)[1..] == rest;
  }

  /** `split` followed by `join` with the same separator gives back the
      original string. */
  lemma {:induction false} JoinSplit(s: string, d: char)
    ensures Join(Split(s, d), [d]) == s
  {
    if s != [] {
      var c, t := s[0], Split(s[1..], d);
      assert s == [c] + s[1..];
      SplitCons(c, s[1..], d);
      JoinSplit(s[1..], d);
      if c == d {
        JoinCons([], t, [d]);
        assert [] + [d] + Join(t, [d]) == [d] + s[1..];
      } else if |t| == 1 {
        assert Split(s, d) == [[c] + t[0]];
      } else {
        JoinFirstPart(c, t, [d]);
      }
    }
  }

  /** Putting a character at the front of the first part puts it at the
      front of the joined text. */
  lemma JoinFirstPart(c: char, t: seq<string>, sep: string)
    requires |t| > 1
    ensures Join([[c] + t[0]] + t[1..], sep) == [c] + Join(t, sep)
  {
    JoinCons(t[0], t[1..], sep);
    JoinCons([c] + t[0], t[1..], sep);
    assert [t[0]] + t[1..] == t;
    Assoc3([c], t[0], sep + Join(t[1..], sep));
    Assoc3(t[0], sep, Join(t[1..], sep));
    Assoc3([c] + t[0], sep, Join(t[1..], sep));
  }

  /** Appending is associative. */
  lemma Assoc3<T>(a: seq<T>, b: seq<T>, c: seq<T>)
    ensures a + (b + c) == a + b + c
  {
  }

  /** Splitting at a separator occurrence splits the result there too. */
  lemma SplitCons(c: char, s: string, d: char)
    ensures Split([c] + s, d) ==
      if c == d then [[]] + Split(s, d) else [[c] + Split(s, d)[0]] + Split(s, d)[1..]
  {
    assert ([c] + s)[0] == c && ([c] + s)[1..] == s;
  }

  lemma {:induction false} SplitAppend(x: string, y: string, d: char)
    ensures Split(x + [d] + y, d) == Split(x, d) + Split(y, d)
  {
    if x == [] {
      assert x + [d] + y == [d] + y;
      SplitCons(d, y, d);
    } else {
      var c, rest := x[0], x[1..];
      assert x == [c] + rest;
      SplitAppend(rest, y, d);
      SplitAppendStep(c, rest, y, d);
      Assoc3([c], rest, [d]);
      Assoc3([c], rest + [d], y);
    }
  }

  lemma SplitAppendStep(c: char, x: string, y: string, d: char)
    requires Split(x + [d] + y, d) == Split(x, d) + Split(y, d)
    ensures Split([c] + (x + [d] + y), d) == Split([c] + x, d) + Split(y, d)
  {
    SplitCons(c, x + [d] + y, d);
    SplitCons(c, x, d);
    PartsAppend(c == d, [c], Split(x, d), Split(y, d));
  }

  /** Splitting `[c] + s` either opens a new part or extends the first one;
      both commute with appending the parts of a later text. */
  lemma PartsAppend(sep: bool, h: string, tx: seq<string>, ty: seq<string>)
    requires tx != []
    ensures (if sep then [[]] + (tx + ty) else [h + (tx + ty)[0]] + (tx + ty)[1..])
         == (if sep then [[]] + tx else [h + tx[0]] + tx[1..]) + ty
  {
    assert (tx + ty)[0] == tx[0] && (tx + ty)[1..] == tx[1..] + ty;
  }

  lemma {:induction false} SplitWithoutSeparator(s: string, d: char)
    requires d !in s
    ensures Split(s, d) == [s]
  {
    if s != [] {
      assert d !in s[1..] by { assert forall k :: 0 <= k < |s| - 1 ==> s[1..][k] == s[k + 1]; }
      SplitWithoutSeparator(s[1..], d);
      assert [s[0]] + s[1..] == s;
    }
  }

  /** `s.lastIndexOf(c)`: the index of the last `c`, or -1 when there is none. */
  function LastIndexOf(s: string, c: char): (r: int)
    ensures -1 <= r < |s|
    ensures r >= 0 ==> s[r] == c && c !in s[r + 1..]
    ensures r < 0 ==> c !in s
  {
    if s == [] then -1
    else if s[|s| - 1] == c then |s| - 1
    else
      var r := LastIndexOf(s[..|s| - 1], c);
      assert s == s[..|s| - 1] + [s[|s| - 1]];
      assert r >= 0 ==> s[r + 1..] == s[..|s| - 1][r + 1..] + [s[|s| - 1]];
      r
  }

  // ---------------------------------------------------------------------
  // case-insensitive containment

  /** `toLowerCase`, for the ASCII letters. */
  function ToLower(s: string): (r: string)
    ensures |r| == |s|
  {
    if s == [] then []
    else
      var c := s[0];
      [if 'A' <= c <= 'Z' then (c as int + 32) as char else c] + ToLower(s[1..])
  }

  /** `s.includes(sub)`: `sub` occurs in `s` at some position. */
  predicate Includes(s: string, sub: string) {
    exists i {:trigger s[i..]} :: 0 <= i <= |s| - |sub| && sub <= s[i..]
  }

  /** A containment test that ignores the case of letters. */
  predicate IncludesIgnoringCase(s: string, sub: string) {
    Includes(ToLower(s), ToLower(sub))
  }

  // ---------------------------------------------------------------------
  // number formatting, as in a template literal `${n}`

  function DigitChar(d: nat): char
    requires d < 10
  {
    (48 + d) as char
  }

  /** The number a string of decimal digits denotes. */
  function DigitsValue(s: string): int {
    if s == [] then 0 else DigitsValue(s[..|s| - 1]) * 10 + (s[|s| - 1] as int - 48)
  }

  /** The decimal digits of `n`: at least one, no leading zero, and they
      denote `n`. */
  function NatToString(n: nat): (r: string)
    ensures r != [] && forall k :: 0 <= k < |r| ==> '0' <= r[k] <= '9'
    ensures n > 0 ==> r[0] != '0'
    ensures |r| > 1 ==> r[0] != '0'
    ensures DigitsValue(r) == n
    decreases n
  {
    if n < 10 then [DigitChar(n)]
    else
      var r := NatToString(n / 10) + [DigitChar(n % 10)];
      assert r[..|r| - 1] == NatToString(n / 10);
      r
  }

  /** `${i}` for an integer: its decimal digits, after a `-` when it is
      negative. */
  function IntToString(i: int): (r: string)
    ensures r != [] && (r[0] == '-' <==> i < 0)
    ensures var m := if i < 0 then r[1..] else r;
      && m != [] && (forall k :: 0 <= k < |m| ==> '0' <= m[k] <= '9') && (|m| > 1 ==> m[0] != '0')
    ensures i < 0 ==> DigitsValue(r[1..]) == -i
    ensures i >= 0 ==> DigitsValue(r) == i
  {
    if i < 0 then "-" + NatToString(-i) else NatToString(i)
  }
}
