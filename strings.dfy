/**
 * Text primitives used by the log parser and the command-output parsers:
 * ASCII case folding, substring search and splitting with the semantics of
 * Python's `str.split(sep)` and Rust's `str::split(char)`, whitespace
 * tokens (`str.split()`, `split_whitespace`), trimming, Rust's `str::lines`,
 * and Rust's `u64::from_str` with its decimal inverse.
 */
module Strings {
  import opened Wrappers

  // ---------------------------------------------------------------------
  // Case folding (ASCII only)

  function LowerChar(c: char): char {
    if 'A' <= c <= 'Z' then (c as int + 32) as char else c
  }

  function Lower(s: string): (r: string)
    ensures |r| == |s|
  {
    if s == [] then [] else [LowerChar(s[0])] + Lower(s[1..])
  }

  /** Lower-casing works character by character. */
  lemma {:induction false} LowerAt(s: string)
    ensures forall i :: 0 <= i < |s| ==> Lower(s)[i] == LowerChar(s[i])
    decreases |s|
  {
    if s != [] {
      LowerAt(s[1..]);
      assert forall i :: 1 <= i < |s| ==> Lower(s)[i] == Lower(s[1..])[i - 1];
    }
  }

  lemma LowerNoUpper(s: string)
    requires forall i :: 0 <= i < |s| ==> !('A' <= s[i] <= 'Z')
    ensures Lower(s) == s
  {
    LowerAt(s);
  }

  lemma LowerConcat(a: string, b: string)
    ensures Lower(a + b) == Lower(a) + Lower(b)
  {
    LowerAt(a + b);
    LowerAt(a);
    LowerAt(b);
    assert forall i :: 0 <= i < |a + b| ==> Lower(a + b)[i] == (Lower(a) + Lower(b))[i];
  }

  // ---------------------------------------------------------------------
  // Substring search

  /** The first position at which `p` occurs in `s`, if any. */
  function IndexOf(s: string, p: string): (r: Option<nat>)
    ensures r.Some? ==> r.value + |p| <= |s|
    decreases |s|
  {
    if p <= s then Some(0)
    else if s == [] then None
    else
      match IndexOf(s[1..], p)
      case None => None
      case Some(k) => Some(k + 1)
  }

  /** `IndexOf` finds an occurrence, and no earlier one; None means there is none. */
  lemma {:induction false} IndexOfSpec(s: string, p: string)
    ensures var r := IndexOf(s, p);
      && (r.Some? ==> p <= s[r.value..])
      && (r.Some? ==> forall j :: 0 <= j < r.value ==> !(p <= s[j..]))
      && (r.None? ==> forall j :: 0 <= j <= |s| ==> !(p <= s[j..]))
    decreases |s|
  {
    if !(p <= s) && s != [] {
      IndexOfSpec(s[1..], p);
      assert forall j :: 1 <= j <= |s| ==> s[j..] == s[1..][j - 1..];
    }
  }

  /** `p` occurs somewhere in `s` (Python's `p in s`). */
  predicate Contains(s: string, p: string) {
    exists k :: 0 <= k <= |s| - |p| && p <= s[k..]
  }

  lemma ContainsAt(s: string, p: string, k: nat)
    requires k + |p| <= |s| && s[k..k + |p|] == p
    ensures Contains(s, p)
  {
    assert p <= s[k..];
  }

  lemma ContainsMiddle(a: string, p: string, b: string)
    ensures Contains(a + p + b, p)
  {
    ContainsAt(a + p + b, p, |a|);
  }

  /** A lower-case pattern is still found after the text around it is lower-cased. */
  lemma LowerContainsMiddle(a: string, p: string, b: string)
    requires Lower(p) == p
    ensures Contains(Lower(a + p + b), p)
  {
    LowerConcat(a + p, b);
    LowerConcat(a, p);
    ContainsMiddle(Lower(a), p, Lower(b));
  }

  lemma RegroupRight(a: string, p: string, b: string, z: string)
    ensures a + p + b + z == a + p + (b + z)
  {
  }

  /** Moving the outer pieces of a concatenation inwards. */
  lemma Regroup(x: string, a: string, p: string, b: string, z: string)
    ensures x + (a + p + b) + z == (x + a) + p + (b + z)
  {
  }

  // ---------------------------------------------------------------------
  // Splitting on a separator string

  /**
   * The pieces between non-overlapping occurrences of `sep`, scanned left
   * to right; always at least one piece (Python `s.split(sep)`, Rust
   * `s.split(c)` with `sep == [c]`).
   */
  function Split(s: string, sep: string): (parts: seq<string>)
    requires |sep| > 0
    ensures |parts| >= 1
    decreases |s|
  {
    match IndexOf(s, sep)
    case None => [s]
    case Some(i) => [s[..i]] + Split(s[i + |sep|..], sep)
  }

  function Join(parts: seq<string>, sep: string): string {
    if parts == [] then []
    else if |parts| == 1 then parts[0]
    else parts[0] + sep + Join(parts[1..], sep)
  }

  /** Joining a non-empty list behind a first piece puts one separator between them. */
  lemma JoinCons(first: string, rest: seq<string>, sep: string)
    requires rest != []
    ensures Join([first] + rest, sep) == first + sep + Join(rest, sep)
  {
    assert ([first] + rest)[1..] == rest;
  }

  /** Where the separator is found, the text is the piece before it, the separator and the rest. */
  lemma SplitAround(s: string, sep: string, i: nat)
    requires |sep| > 0 && IndexOf(s, sep) == Some(i)
    ensures s == s[..i] + sep + s[i + |sep|..]
  {
    IndexOfSpec(s, sep);
    assert s[i..i + |sep|] == sep;
    assert s == s[..i] + s[i..i + |sep|] + s[i + |sep|..];
  }

  /** Splitting loses nothing: joining the pieces with the separator restores the text. */
  lemma {:induction false} JoinSplit(s: string, sep: string)
    requires |sep| > 0
    ensures Join(Split(s, sep), sep) == s
    decreases |s|
  {
    var k := IndexOf(s, sep);
    if k.Some? {
      var i := k.value;
      var rest := s[i + |sep|..];
      JoinSplit(rest, sep);
      JoinCons(s[..i], Split(rest, sep), sep);
      SplitAround(s, sep, i);
    }
  }

  /** There is more than one piece exactly when the separator occurs. */
  lemma SplitManyIffContains(s: string, sep: string)
    requires |sep| > 0
    ensures |Split(s, sep)| > 1 <==> Contains(s, sep)
  {
    IndexOfSpec(s, sep);
    if Contains(s, sep) {
      var k :| 0 <= k <= |s| - |sep| && sep <= s[k..];
      assert IndexOf(s, sep).Some?;
    }
  }

  /** Splitting at the first occurrence and then splitting the rest. */
  lemma SplitOnce(s: string, sep: string)
    requires |sep| > 0 && IndexOf(s, sep).Some?
    ensures var i := IndexOf(s, sep).value;
      Split(s, sep) == [s[..i]] + Split(s[i + |sep|..], sep)
  {
  }

  /** The first piece is the text before the first occurrence. */
  lemma SplitFirstPiece(s: string, sep: string)
    requires |sep| > 0
    ensures IndexOf(s, sep).Some? ==> Split(s, sep)[0] == s[..IndexOf(s, sep).value]
    ensures IndexOf(s, sep).None? ==> Split(s, sep) == [s]
  {
  }

  /** A one-character separator is found first right after a prefix free of it. */
  lemma {:induction false} IndexOfAfterFree(a: string, c: char, t: string)
    requires c !in a
    ensures IndexOf(a + [c] + t, [c]) == Some(|a|)
  {
    var s := a + [c] + t;
    IndexOfSpec(s, [c]);
    assert [c] <= s[|a|..];
    forall j | 0 <= j < |a|
      ensures !([c] <= s[j..])
    {
      assert s[j..][0] == a[j];
    }
  }

  /** A text free of a one-character separator is a single piece. */
  lemma SplitNoSep(a: string, c: char)
    requires c !in a
    ensures Split(a, [c]) == [a]
  {
    IndexOfSpec(a, [c]);
    forall j | 0 <= j <= |a|
      ensures !([c] <= a[j..])
    {
      if j < |a| {
        assert a[j..][0] == a[j];
      }
    }
  }

  /** Splitting a prefix free of the separator off the front. */
  lemma SplitAfterFree(a: string, c: char, t: string)
    requires c !in a
    ensures Split(a + [c] + t, [c]) == [a] + Split(t, [c])
  {
    IndexOfAfterFree(a, c, t);
    var s := a + [c] + t;
    assert s[..|a|] == a;
    assert s[|a| + 1..] == t;
  }

  lemma {:induction false} FirstOccurrence(a: string, c: char) returns (a1: string, a2: string)
    requires c in a
    ensures a == a1 + [c] + a2 && c !in a1
  {
    if a[0] == c {
      a1, a2 := [], a[1..];
    } else {
      assert c in a[1..];
      var b1, b2 := FirstOccurrence(a[1..], c);
      a1, a2 := [a[0]] + b1, b2;
    }
  }

  /** A last separator followed by separator-free text ends the split with that text. */
  lemma {:induction false} SplitLastFree(a: string, c: char, t: string)
    requires c !in t
    ensures Split(a + [c] + t, [c]) == Split(a, [c]) + [t]
    decreases |a|
  {
    if c !in a {
      SplitNoSep(a, c);
      SplitAfterFree(a, c, t);
      SplitNoSep(t, c);
    } else {
      var a1, a2 := FirstOccurrence(a, c);
      SplitAfterFree(a1, c, a2);
      SplitAfterFree(a1, c, a2 + [c] + t);
      SplitLastFree(a2, c, t);
      calc {
        Split(a + [c] + t, [c]);
        { assert a + [c] + t == a1 + [c] + (a2 + [c] + t); }
        Split(a1 + [c] + (a2 + [c] + t), [c]);
        [a1] + (Split(a2, [c]) + [t]);
        ([a1] + Split(a2, [c])) + [t];
        Split(a, [c]) + [t];
      }
    }
  }

  /** Text up to a line break or its end is the first piece. */
  lemma FirstLineOf(line: string, tail: string)
    requires '\n' !in line
    requires tail == [] || tail[0] == '\n'
    ensures Split(line + tail, "\n")[0] == line
  {
    assert "\n" == ['\n'];
    if tail == [] {
      assert line + tail == line;
      SplitNoSep(line, '\n');
    } else {
      assert line + tail == line + ['\n'] + tail[1..];
      SplitAfterFree(line, '\n', tail[1..]);
    }
  }

  /** The text between the first line break and the next one (or the end) is the second piece. */
  lemma SecondLineOf(header: string, line: string, tail: string)
    requires '\n' !in header && '\n' !in line
    requires tail == [] || tail[0] == '\n'
    ensures var parts := Split(header + "\n" + line + tail, "\n"); |parts| > 1 && parts[1] == line
  {
    var s := header + "\n" + line + tail;
    var rest := line + tail;
    assert "\n" == ['\n'];
    assert s == header + ['\n'] + rest;
    SplitAfterFree(header, '\n', rest);
    FirstLineOf(line, tail);
  }

  // ---------------------------------------------------------------------
  // Whitespace

  /** Whitespace in the ASCII range as Rust's `char::is_whitespace` (behind `trim` and `split_whitespace`) has it. */
  predicate IsSpace(c: char) {
    c == ' ' || c == '\t' || c == '\n' || c == '\r' || c == '\U{000B}' || c == '\U{000C}'
  }

  /**
   * Whitespace in the ASCII range as Python's `str.isspace` (behind
   * `strip` and `split`) has it: Rust's six, and the four separators
   * U+001C to U+001F as well.
   */
  predicate IsPySpace(c: char) {
    IsSpace(c) || ('\U{001C}' <= c <= '\U{001F}')
  }

  /** `s` without its longest prefix of `space` characters. */
  function DropWhile(s: string, space: char -> bool): (r: string)
    ensures |r| <= |s| && r == s[|s| - |r|..]
    ensures r == [] || !space(r[0])
    ensures forall i :: 0 <= i < |s| - |r| ==> space(s[i])
  {
    if s != [] && space(s[0]) then DropWhile(s[1..], space) else s
  }

  /** The longest prefix of `s` free of `space` characters. */
  function TakeUntil(s: string, space: char -> bool): (r: string)
    ensures |r| <= |s| && r == s[..|r|]
    ensures forall i :: 0 <= i < |r| ==> !space(r[i])
    ensures |r| == |s| || space(s[|r|])
  {
    if s != [] && !space(s[0]) then [s[0]] + TakeUntil(s[1..], space) else []
  }

  /**
   * The first token of `s` separated by `space` characters, or None when
   * `s` holds nothing else: the token starts at the first character that
   * is not a space and runs up to the next space or the end.
   */
  function TokenBy(s: string, space: char -> bool): (r: Option<string>)
    ensures r.None? <==> forall i :: 0 <= i < |s| ==> space(s[i])
    ensures r.Some? ==> |r.value| > 0 && forall i :: 0 <= i < |r.value| ==> !space(r.value[i])
    ensures r.Some? ==>
      var j := |s| - |DropWhile(s, space)|;
      && j + |r.value| <= |s| && r.value == s[j..j + |r.value|]
      && (j + |r.value| == |s| || space(s[j + |r.value|]))
  {
    var t := DropWhile(s, space);
    if t == [] then None
    else
      assert !space(s[|s| - |t|]);
      Some(TakeUntil(t, space))
  }

  function TrimStart(s: string): (r: string)
    ensures |r| <= |s| && r == s[|s| - |r|..]
    ensures r == [] || !IsSpace(r[0])
    ensures forall i :: 0 <= i < |s| - |r| ==> IsSpace(s[i])
  {
    DropWhile(s, IsSpace)
  }

  function TrimEnd(s: string): (r: string)
    ensures |r| <= |s| && r == s[..|r|]
    ensures r == [] || !IsSpace(r[|r| - 1])
    ensures forall i :: |r| <= i < |s| ==> IsSpace(s[i])
  {
    if s != [] && IsSpace(s[|s| - 1]) then TrimEnd(s[..|s| - 1]) else s
  }

  function Trim(s: string): string {
    TrimEnd(TrimStart(s))
  }

  /** Text that neither starts nor ends with whitespace is left as it is. */
  lemma TrimUnchanged(s: string)
    requires s == [] || (!IsSpace(s[0]) && !IsSpace(s[|s| - 1]))
    ensures Trim(s) == s
  {
  }

  /**
   * The first whitespace-separated token, or None when the text is blank:
   * Rust's `s.split_whitespace().next()`.
   */
  function FirstToken(s: string): (r: Option<string>)
    ensures r.None? <==> forall i :: 0 <= i < |s| ==> IsSpace(s[i])
    ensures r.Some? ==> |r.value| > 0 && forall i :: 0 <= i < |r.value| ==> !IsSpace(r.value[i])
  {
    TokenBy(s, IsSpace)
  }

  /**
   * The first whitespace-separated token, or None when the text is blank:
   * Python's `s.strip().split()[0]`, which raises on a blank text.
   */
  function PyFirstToken(s: string): (r: Option<string>)
    ensures r.None? <==> forall i :: 0 <= i < |s| ==> IsPySpace(s[i])
    ensures r.Some? ==> |r.value| > 0 && forall i :: 0 <= i < |r.value| ==> !IsPySpace(r.value[i])
    ensures r.Some? ==> var t := DropWhile(s, IsPySpace);
      r.value <= t && (|r.value| == |t| || IsPySpace(t[|r.value|]))
  {
    TokenBy(s, IsPySpace)
  }

  /** A separator below U+0020 splits a Python token but not a Rust one. */
  lemma SeparatorSplitsOnlyPython()
    ensures PyFirstToken("\U{001F}8") == Some("8")
    ensures FirstToken("\U{001F}8") == Some("\U{001F}8")
  {
    PyTokenAfterSeparator();
    RustTokenWithSeparator();
  }

  /** Python: U+001F is leading whitespace, and the token is "8". */
  lemma PyTokenAfterSeparator()
    ensures PyFirstToken("\U{001F}8") == Some("8")
  {
    var s, t := "\U{001F}8", "8";
    assert s[0] == '\U{001F}' && s[1..] == t && t[0] == '8' && t[1..] == [];
    assert IsPySpace(s[0]) && !IsPySpace(t[0]);
    assert DropWhile(t, IsPySpace) == t;
    assert DropWhile(s, IsPySpace) == t;
    assert TakeUntil([], IsPySpace) == [];
    assert TakeUntil(t, IsPySpace) == [t[0]] + TakeUntil([], IsPySpace) == t;
    assert TokenBy(s, IsPySpace) == Some(TakeUntil(t, IsPySpace));
  }

  /** Rust: U+001F is not whitespace, so it starts the token. */
  lemma RustTokenWithSeparator()
    ensures FirstToken("\U{001F}8") == Some("\U{001F}8")
  {
    var s, t := "\U{001F}8", "8";
    assert s[0] == '\U{001F}' && s[1..] == t && t[0] == '8' && t[1..] == [];
    assert !IsSpace(s[0]) && !IsSpace(t[0]);
    assert DropWhile(s, IsSpace) == s;
    assert TakeUntil([], IsSpace) == [];
    assert TakeUntil(t, IsSpace) == [t[0]] + TakeUntil([], IsSpace) == t;
    assert TakeUntil(s, IsSpace) == [s[0]] + TakeUntil(t, IsSpace) == s;
    assert TokenBy(s, IsSpace) == Some(TakeUntil(s, IsSpace));
  }

  /** The text with every occurrence of `c` removed (Python `s.replace(c, '')`). */
  function Without(s: string, c: char): (r: string)
    ensures |r| <= |s|
    ensures forall x :: x in r <==> x in s && x != c
  {
    if s == [] then []
    else (if s[0] == c then [] else [s[0]]) + Without(s[1..], c)
  }

  // ---------------------------------------------------------------------
  // Lines, as Rust's `str::lines`

  function StripCr(s: string): string {
    if s != [] && s[|s| - 1] == '\r' then s[..|s| - 1] else s
  }

  /**
   * Rust's `str::lines`: pieces between '\n', a final empty piece dropped
   * (so "" has no lines), and one '\r' removed from each piece that a '\n'
   * terminated.
   */
  function Lines(s: string): seq<string> {
    var pieces := Split(s, "\n");
    var body := if pieces[|pieces| - 1] == [] then pieces[..|pieces| - 1] else pieces;
    seq(|body|, i requires 0 <= i < |body| => if i < |pieces| - 1 then StripCr(body[i]) else body[i])
  }

  lemma LinesEmpty()
    ensures Lines("") == []
  {
    SplitNoSep("", '\n');
  }

  /** Text without a line break is one line, kept as it is. */
  lemma LinesSingle(line: string)
    requires '\n' !in line && line != []
    ensures Lines(line) == [line]
  {
    SplitNoSep(line, '\n');
  }

  /** The first line is the text before the first line break, less one trailing '\r'. */
  lemma LinesFirst(line: string, rest: string)
    requires '\n' !in line
    ensures var ls := Lines(line + "\n" + rest); |ls| >= 1 && ls[0] == StripCr(line)
  {
    SplitAfterFree(line, '\n', rest);
  }

  // ---------------------------------------------------------------------
  // Unsigned decimal numbers

  predicate IsDigit(c: char) {
    '0' <= c <= '9'
  }

  predicate AllDigits(s: string) {
    forall i :: 0 <= i < |s| ==> IsDigit(s[i])
  }

  function DigitsValue(ds: string): nat
    requires AllDigits(ds)
  {
    if ds == [] then 0
    else DigitsValue(ds[..|ds| - 1]) * 10 + (ds[|ds| - 1] as int - '0' as int)
  }

  /**
   * Rust's `u64::from_str`: one optional leading '+', then at least one
   * ASCII digit and nothing else, with a value that fits in 64 bits.
   */
  function ParseU64(s: string): (r: Option<U64>)
    ensures r.Some? ==> s != [] && (IsDigit(s[0]) || s[0] == '+')
    ensures r.Some? && IsDigit(s[0]) ==> AllDigits(s) && r.value == DigitsValue(s)
    ensures (exists i :: 0 <= i < |s| && s[i] != '+' && !IsDigit(s[i])) ==> r.None?
  {
    var digits := if |s| > 1 && s[0] == '+' then s[1..] else s;
    if digits == [] || !AllDigits(digits) then None
    else if DigitsValue(digits) > U64_MAX then None
    else Some(DigitsValue(digits))
  }

  function DigitChar(d: nat): char
    requires d < 10
  {
    ('0' as int + d) as char
  }

  /** Rust's left-aligned `{: <width}`: `s` followed by spaces up to `width` characters. */
  function PadRight(s: string, width: nat): (r: string)
    ensures |r| == if |s| < width then width else |s|
    ensures r[..|s|] == s
    ensures forall i :: |s| <= i < |r| ==> r[i] == ' '
  {
    if |s| < width then s + seq(width - |s|, _ => ' ') else s
  }

  /** The decimal rendering of `n` that Rust's `format!("{}", n)` produces. */
  function Decimal(n: nat): (r: string)
    ensures r != [] && AllDigits(r)
  {
    if n < 10 then [DigitChar(n)] else Decimal(n / 10) + [DigitChar(n % 10)]
  }

  lemma {:induction false} DecimalValue(n: nat)
    ensures DigitsValue(Decimal(n)) == n
  {
    if n >= 10 {
      DecimalValue(n / 10);
      var d := Decimal(n);
      assert d[..|d| - 1] == Decimal(n / 10);
    }
  }

  /** Parsing a rendered number gives the number back. */
  lemma ParseDecimal(n: U64)
    ensures ParseU64(Decimal(n)) == Some(n)
  {
    DecimalValue(n);
  }
}
