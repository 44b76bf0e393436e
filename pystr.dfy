/**
 * The parts of Python's `str` and `int` that the memory report relies on:
 * `s.split(sep)` with a one-character separator, `sub in s`, `s.split()`,
 * `int(s)`, `str(n)` and `sep.join(parts)`. An operation that raises in
 * Python returns `None` here.
 */
module PyStr {
  import opened Wrappers

  // ---------------------------------------------------------------------
  // Whitespace, as Python's str.isspace() defines it

  /** The characters that `str.isspace()` and so `str.split()` treat as whitespace. */
  predicate IsSpace(c: char) {
    var n := c as int;
    (9 <= n <= 13) || (28 <= n <= 32) || n == 0x85 || n == 0xA0 || n == 0x1680 ||
    (0x2000 <= n <= 0x200A) || n == 0x2028 || n == 0x2029 || n == 0x202F ||
    n == 0x205F || n == 0x3000
  }

  /**
   * The whitespace that `int()` skips around its literal: the characters
   * above are first turned into a space, except the ASCII ones, which are
   * kept as they are, so the separators U+001C to U+001F are not skipped.
   */
  predicate IsIntSpace(c: char) {
    IsSpace(c) && !(28 <= c as int <= 31)
  }

  predicate NoSpace(s: string) {
    forall i :: 0 <= i < |s| ==> !IsSpace(s[i])
  }

  predicate AllSpace(s: string) {
    forall i :: 0 <= i < |s| ==> IsSpace(s[i])
  }

  // ---------------------------------------------------------------------
  // sep.join(parts) and s.split(sep)

  /** `sep.join(parts)`: the parts with `sep` between each two neighbours. */
  function Join(parts: seq<string>, sep: string): string {
    if |parts| == 0 then ""
    else if |parts| == 1 then parts[0]
    else parts[0] + sep + Join(parts[1..], sep)
  }

  /**
   * `s.split(sep)` for a one-character separator: the pieces between the
   * occurrences of `sep`; never empty, and a piece may be empty.
   */
  function Split(s: string, sep: char): (r: seq<string>)
    ensures |r| >= 1
    ensures forall i :: 0 <= i < |r| ==> sep !in r[i]
    decreases |s|
  {
    if |s| == 0 then [""]
    else
      var rest := Split(s[1..], sep);
      if s[0] == sep then [""] + rest
      else [[s[0]] + rest[0]] + rest[1..]
  }

  lemma {:induction false} SplitPrefix(w: string, s: string, sep: char)
    requires sep !in w
    ensures Split(w + s, sep) == [w + Split(s, sep)[0]] + Split(s, sep)[1..]
    decreases |w|
  {
    if |w| > 0 {
      assert (w + s)[1..] == w[1..] + s;
      SplitPrefix(w[1..], s, sep);
      assert [w[0]] + (w[1..] + Split(s, sep)[0]) == w + Split(s, sep)[0];
    } else {
      assert w + s == s;
      assert w + Split(s, sep)[0] == Split(s, sep)[0];
      assert [Split(s, sep)[0]] + Split(s, sep)[1..] == Split(s, sep);
    }
  }

  /** Splitting a join recovers the parts, when no part holds the separator. */
  lemma {:induction false} SplitJoin(parts: seq<string>, sep: char)
    requires |parts| >= 1
    requires forall i :: 0 <= i < |parts| ==> sep !in parts[i]
    ensures Split(Join(parts, [sep]), sep) == parts
    decreases |parts|
  {
    if |parts| == 1 {
      SplitPrefix(parts[0], "", sep);
      assert parts[0] + "" == parts[0];
    } else {
      var rest := Join(parts[1..], [sep]);
      SplitJoin(parts[1..], sep);
      assert parts[0] + [sep] + rest == parts[0] + ([sep] + rest);
      SplitPrefix(parts[0], [sep] + rest, sep);
      assert ([sep] + rest)[1..] == rest;
      assert Split([sep] + rest, sep) == [""] + parts[1..];
      assert parts[0] + "" == parts[0];
    }
  }

  /** Joining the pieces of a split recovers the text. */
  lemma {:induction false} JoinSplit(s: string, sep: char)
    ensures Join(Split(s, sep), [sep]) == s
    decreases |s|
  {
    if |s| > 0 {
      var rest := Split(s[1..], sep);
      JoinSplit(s[1..], sep);
      if s[0] == sep {
        assert ([""] + rest)[1..] == rest;
      } else {
        var parts := [[s[0]] + rest[0]] + rest[1..];
        if |rest| == 1 {
          assert Join(rest, [sep]) == rest[0];
        } else {
          assert parts[1..] == rest[1..];
          assert Join(rest, [sep]) == rest[0] + [sep] + Join(rest[1..], [sep]);
        }
      }
    }
  }

  // ---------------------------------------------------------------------
  // sub in s

  predicate StartsWith(s: string, prefix: string) {
    |prefix| <= |s| && s[..|prefix|] == prefix
  }

  /** `sub in s`: `sub` occurs somewhere in `s` (the empty string always does). */
  predicate Contains(s: string, sub: string)
    decreases |s|
  {
    StartsWith(s, sub) || (|s| > 0 && Contains(s[1..], sub))
  }

  ghost predicate OccursAt(s: string, sub: string, i: int) {
    0 <= i && i + |sub| <= |s| && s[i..i + |sub|] == sub
  }

  /** `Contains` holds exactly when `sub` occurs at some position of `s`. */
  lemma {:induction false} ContainsIff(s: string, sub: string)
    ensures Contains(s, sub) <==> exists i :: OccursAt(s, sub, i)
    decreases |s|
  {
    if StartsWith(s, sub) {
      assert OccursAt(s, sub, 0);
    } else if |s| > 0 {
      ContainsIff(s[1..], sub);
      if Contains(s[1..], sub) {
        var i :| OccursAt(s[1..], sub, i);
        assert s[1..][i..i + |sub|] == s[i + 1..i + 1 + |sub|];
        assert OccursAt(s, sub, i + 1);
      } else {
        forall i | 0 <= i && i + |sub| <= |s| ensures !OccursAt(s, sub, i) {
          if i == 0 {
            assert s[..|sub|] == s[0..|sub|];
          } else {
            assert s[1..][i - 1..i - 1 + |sub|] == s[i..i + |sub|];
            assert !OccursAt(s[1..], sub, i - 1);
          }
        }
      }
    }
  }

  // ---------------------------------------------------------------------
  // s.split() with no argument

  /**
   * `s.split()`: the maximal runs of non-whitespace characters, in order;
   * runs of whitespace separate them and produce no empty tokens.
   */
  function Words(s: string): (r: seq<string>)
    ensures forall i :: 0 <= i < |r| ==> r[i] != "" && NoSpace(r[i])
    ensures r == [] <==> AllSpace(s)
    decreases |s|
  {
    if |s| == 0 then []
    else
      var rest := Words(s[1..]);
      if IsSpace(s[0]) then
        assert AllSpace(s) <==> AllSpace(s[1..]) by {
          if AllSpace(s[1..]) {
            forall i | 0 <= i < |s| ensures IsSpace(s[i]) {
              if i > 0 { assert s[i] == s[1..][i - 1]; }
            }
          }
        }
        rest
      else if |s| > 1 && !IsSpace(s[1]) then
        assert !AllSpace(s[1..]) by { assert s[1..][0] == s[1]; }
        [[s[0]] + rest[0]] + rest[1..]
      else
        [[s[0]]] + rest
  }

  lemma {:induction false} WordsSkipSpace(sp: string, s: string)
    requires AllSpace(sp)
    ensures Words(sp + s) == Words(s)
    decreases |sp|
  {
    if |sp| > 0 {
      assert (sp + s)[1..] == sp[1..] + s;
      WordsSkipSpace(sp[1..], s);
    } else {
      assert sp + s == s;
    }
  }

  lemma {:induction false} WordsTakeWord(w: string, s: string)
    requires w != "" && NoSpace(w)
    requires s == "" || IsSpace(s[0])
    ensures Words(w + s) == [w] + Words(s)
    decreases |w|
  {
    assert (w + s)[1..] == w[1..] + s;
    if |w| == 1 {
      assert w[1..] + s == s;
      assert [w[0]] == w;
      assert |w + s| > 1 ==> (w + s)[1] == s[0];
    } else {
      WordsTakeWord(w[1..], s);
      assert (w + s)[1] == w[1];
      assert [w[0]] + w[1..] == w;
    }
  }

  /**
   * Splitting words joined by single spaces recovers the words: each
   * token of `s.split()` is one of the words, in order.
   */
  lemma {:induction false} WordsJoin(ws: seq<string>)
    requires forall i :: 0 <= i < |ws| ==> ws[i] != "" && NoSpace(ws[i])
    ensures Words(Join(ws, " ")) == ws
    decreases |ws|
  {
    if |ws| == 1 {
      WordsTakeWord(ws[0], "");
      assert ws[0] + "" == ws[0];
    } else if |ws| > 1 {
      var rest := Join(ws[1..], " ");
      WordsJoin(ws[1..]);
      assert ws[0] + " " + rest == ws[0] + (" " + rest);
      WordsTakeWord(ws[0], " " + rest);
      WordsSkipSpace(" ", rest);
    }
  }

  // ---------------------------------------------------------------------
  // int(s), base 10

  predicate IsDigit(c: char) {
    '0' <= c <= '9'
  }

  function DigitValue(c: char): (d: nat)
    requires IsDigit(c)
  {
    (c as int) - ('0' as int)
  }

  predicate DigitsOrUnderscores(s: string) {
    forall i :: 0 <= i < |s| ==> IsDigit(s[i]) || s[i] == '_'
  }

  /**
   * The body of a base-10 literal that `int()` accepts: ASCII digits, with
   * single underscores allowed only between two digits.
   */
  predicate IsDigitString(s: string) {
    && |s| > 0
    && IsDigit(s[0])
    && IsDigit(s[|s| - 1])
    && DigitsOrUnderscores(s)
    && forall i :: 0 <= i < |s| - 1 && s[i] == '_' ==> IsDigit(s[i + 1])
  }

  /** The number the digits of `s` spell, underscores skipped. */
  function DigitsValue(s: string): nat
    requires DigitsOrUnderscores(s)
  {
    if |s| == 0 then 0
    else
      var v := DigitsValue(s[..|s| - 1]);
      if s[|s| - 1] == '_' then v else v * 10 + DigitValue(s[|s| - 1])
  }

  function TrimStart(s: string): string {
    if |s| > 0 && IsIntSpace(s[0]) then TrimStart(s[1..]) else s
  }

  function TrimEnd(s: string): string {
    if |s| > 0 && IsIntSpace(s[|s| - 1]) then TrimEnd(s[..|s| - 1]) else s
  }

  /** `s` without the whitespace `int()` skips at either end. */
  function Strip(s: string): string {
    TrimEnd(TrimStart(s))
  }

  /**
   * `int(s)`: surrounding whitespace is ignored, then an optional sign and
   * a digit string; anything else raises ValueError (`None`).
   */
  function ParseInt(s: string): Option<int> {
    var t := Strip(s);
    if |t| > 0 && (t[0] == '+' || t[0] == '-') then
      if IsDigitString(t[1..]) then
        var v: int := DigitsValue(t[1..]);
        Some(if t[0] == '-' then -v else v)
      else None
    else if IsDigitString(t) then Some(DigitsValue(t))
    else None
  }

  // ---------------------------------------------------------------------
  // str(n)

  /** The decimal digits of `n`, most significant first, with no leading zero. */
  function NatToString(n: nat): (r: string)
    ensures |r| > 0 && forall i :: 0 <= i < |r| ==> IsDigit(r[i])
    ensures |r| > 1 ==> r[0] != '0'
  {
    var d := [(('0' as int) + n % 10) as char];
    if n < 10 then d else NatToString(n / 10) + d
  }

  /** `str(n)`: a minus sign for negative numbers, then the digits. */
  function IntToString(n: int): string {
    if n < 0 then "-" + NatToString(-n) else NatToString(n)
  }

  lemma {:induction false} DigitsValueOfNat(n: nat)
    ensures DigitsOrUnderscores(NatToString(n)) && DigitsValue(NatToString(n)) == n
  {
    var s := NatToString(n);
    if n >= 10 {
      DigitsValueOfNat(n / 10);
      assert s[..|s| - 1] == NatToString(n / 10);
    }
  }

  // A step the proof of ParseIntToString uses, stated apart to keep it small.
  lemma StripNoSpace(s: string)
    requires NoSpace(s)
    ensures Strip(s) == s
  {
  }

  /** `int(str(n)) == n`: the printed figure reads back as the same number. */
  lemma {:induction false} ParseIntToString(n: int)
    ensures ParseInt(IntToString(n)) == Some(n)
  {
    var s := IntToString(n);
    var m: nat := if n < 0 then -n else n;
    DigitsValueOfNat(m);
    assert NoSpace(s) by {
      forall i | 0 <= i < |s| ensures !IsSpace(s[i]) {
        if n < 0 && i > 0 { assert s[i] == NatToString(m)[i - 1]; }
      }
    }
    StripNoSpace(s);
    if n < 0 {
      assert s[1..] == NatToString(m);
    }
  }

  /**
   * The ASCII separators U+001C to U+001F, whitespace to `str.split()`,
   * make `int()` raise when they follow a number.
   */
  lemma ParseIntRejectsSeparator(n: nat, c: char)
    requires 28 <= c as int <= 31
    ensures IsSpace(c) && ParseInt(NatToString(n) + [c]) == None
  {
    var s := NatToString(n) + [c];
    assert IsDigit(s[0]);
    assert TrimStart(s) == s;
    assert TrimEnd(s) == s;
  }

  /** `str` never prints two numbers the same way. */
  lemma IntToStringInjective(a: int, b: int)
    requires IntToString(a) == IntToString(b)
    ensures a == b
  {
    ParseIntToString(a);
    ParseIntToString(b);
  }

  /** `str(n)` is a sign and digits only: no whitespace, no letters, no newline. */
  lemma IntToStringChars(n: int, i: int)
    requires 0 <= i < |IntToString(n)|
    ensures IsDigit(IntToString(n)[i]) || IntToString(n)[i] == '-'
  {
    if n < 0 && i > 0 {
      assert IntToString(n)[i] == NatToString(-n)[i - 1];
    }
  }

  // ---------------------------------------------------------------------
  // Facts about text used by the lemmas on the report

  /** The position of the first `m` in `s`, or `|s|` when there is none. */
  function IndexOf(s: string, m: char): nat
    decreases |s|
  {
    if |s| == 0 || s[0] == m then 0 else 1 + IndexOf(s[1..], m)
  }

  lemma {:induction false} IndexOfMarker(a: string, t: string, x: string)
    requires t != "" && t[0] !in a
    ensures IndexOf(a + t + x, t[0]) == |a|
    decreases |a|
  {
    if |a| > 0 {
      assert (a + t + x)[1..] == a[1..] + t + x;
      IndexOfMarker(a[1..], t, x);
    } else {
      assert (a + t + x)[0] == t[0];
    }
  }

  /**
   * Text cut at the first occurrence of a marker, whose first character
   * occurs in neither head, determines both sides.
   */
  lemma CutAt(a: string, t: string, x: string, b: string, y: string)
    requires t != "" && t[0] !in a && t[0] !in b && a + t + x == b + t + y
    ensures a == b && x == y
  {
    IndexOfMarker(a, t, x);
    IndexOfMarker(b, t, y);
    assert a == (a + t + x)[..|a|];
    assert b == (b + t + y)[..|b|];
    assert x == (a + t + x)[|a| + |t|..];
    assert y == (b + t + y)[|b| + |t|..];
  }

  lemma DropSuffix(x: string, y: string, s: string)
    requires x + s == y + s
    ensures x == y
  {
    assert x == (x + s)[..|x|];
    assert y == (y + s)[..|y|];
  }

  // Regrouping a concatenation, called where the solver would otherwise
  // have to rediscover it inside a larger proof.
  lemma AppendAssoc(a: string, b: string, c: string)
    ensures (a + b) + c == a + (b + c)
  {
  }

  lemma IntToStringNoSpace(n: int)
    ensures NoSpace(IntToString(n))
  {
    forall i | 0 <= i < |IntToString(n)| ensures !IsSpace(IntToString(n)[i]) {
      IntToStringChars(n, i);
    }
  }

  /** A character that is neither a digit nor '-' never occurs in `str(n)`. */
  lemma NoLetterInNumber(n: int, c: char)
    requires !IsDigit(c) && c != '-'
    ensures c !in IntToString(n)
  {
    forall i | 0 <= i < |IntToString(n)| ensures IntToString(n)[i] != c {
      IntToStringChars(n, i);
    }
  }

  /** Every character of a contained text occurs in the containing one. */
  lemma ContainedChars(s: string, sub: string, k: int)
    requires 0 <= k < |sub|
    ensures Contains(s, sub) ==> sub[k] in s
  {
    ContainsIff(s, sub);
    if Contains(s, sub) {
      var i :| OccursAt(s, sub, i);
      assert s[i + k] == sub[k];
    }
  }

  // Stated apart so that the lemmas on the worked example stay small.
  lemma NoLetterInPadding(pad: string, c: char)
    requires AllSpace(pad) && !IsSpace(c)
    ensures c !in pad
  {
  }

  /** A line that starts with a key contains it. */
  lemma StartsWithContains(s: string, key: string)
    requires StartsWith(s, key)
    ensures Contains(s, key)
  {
  }
}
