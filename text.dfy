/** The parts of Rust's `str` and integer API that the recorder backend
    relies on (`contains`, `find`, `trim`, `lines`, `join`, `to_string`,
    `parse::<u64>`), stated over `seq<char>`, together with the `Option` and
    `Result<_, String>` shapes of its return values. */
module Text {

  datatype Option<T> = None | Some(value: T)

  /** `Result<T, String>`: every error of the backend is a plain string. */
  datatype Result<T> = Ok(value: T) | Err(error: string)

  function Min(a: int, b: int): int { if a <= b then a else b }

  function Max(a: int, b: int): int { if a >= b then a else b }

  /** `s.contains(p)`: `p` occurs in `s` as a contiguous block. */
  predicate Contains(s: string, p: string)
    decreases |s|
  {
    p <= s || (s != [] && Contains(s[1..], p))
  }

  /** `s.find(c)`, with `|s|` standing for `None`: the position of the first `c`. */
  function IndexOf(s: string, c: char): (k: nat)
    ensures k <= |s|
    ensures c !in s[..k]
    ensures k < |s| ==> s[k] == c
  {
    if s == [] then 0
    else if s[0] == c then 0
    else
      var k := 1 + IndexOf(s[1..], c);
      assert s[..k] == [s[0]] + s[1..][..k - 1];
      k
  }

  /** Rust's `char::is_whitespace` (the Unicode White_Space property). */
  predicate IsWhitespace(c: char)
  {
    ('\t' <= c <= '\r') || c == ' ' || c == '\U{85}' || c == '\U{A0}' || c == '\U{1680}'
    || ('\U{2000}' <= c <= '\U{200A}') || c == '\U{2028}' || c == '\U{2029}'
    || c == '\U{202F}' || c == '\U{205F}' || c == '\U{3000}'
  }

  predicate Blank(s: string)
  {
    forall i :: 0 <= i < |s| ==> IsWhitespace(s[i])
  }

  /** Neither end of `s` is whitespace. */
  predicate Trimmed(s: string)
  {
    s == [] || (!IsWhitespace(s[0]) && !IsWhitespace(s[|s| - 1]))
  }

  /** `s.trim_start()`: the suffix left after dropping leading whitespace. */
  function TrimStart(s: string): string
  {
    if s != [] && IsWhitespace(s[0]) then TrimStart(s[1..]) else s
  }

  /** What `TrimStart` drops is whitespace, and what it keeps does not
      start with whitespace. */
  lemma {:induction false} TrimStartProperties(s: string)
    ensures var r := TrimStart(s);
      && |r| <= |s| && r == s[|s| - |r|..]
      && (r == [] || !IsWhitespace(r[0]))
      && Blank(s[..|s| - |r|])
  {
    if s != [] && IsWhitespace(s[0]) {
      TrimStartProperties(s[1..]);
      var r := TrimStart(s);
      assert s[..|s| - |r|] == [s[0]] + s[1..][..|s| - 1 - |r|];
    }
  }

  /** `s.trim_end()`: the prefix left after dropping trailing whitespace. */
  function TrimEnd(s: string): string
  {
    if s != [] && IsWhitespace(s[|s| - 1]) then TrimEnd(s[..|s| - 1]) else s
  }

  /** What `TrimEnd` drops is whitespace, and what it keeps does not end
      with whitespace. */
  lemma {:induction false} TrimEndProperties(s: string)
    ensures var r := TrimEnd(s);
      && r <= s
      && (r == [] || !IsWhitespace(r[|r| - 1]))
      && Blank(s[|r|..])
  {
    if s != [] && IsWhitespace(s[|s| - 1]) {
      var init := s[..|s| - 1];
      TrimEndProperties(init);
      var r := TrimEnd(s);
      assert s[|r|..] == init[|r|..] + [s[|s| - 1]];
    }
  }

  /** `s.trim()`: leading and trailing whitespace dropped. */
  function Trim(s: string): string
  {
    TrimEnd(TrimStart(s))
  }

  /** The trimmed text has no whitespace at either end, keeps only
      characters of `s`, and is empty exactly when `s` is all whitespace. */
  lemma TrimProperties(s: string)
    ensures Trimmed(Trim(s))
    ensures forall c :: c in Trim(s) ==> c in s
    ensures Trim(s) == [] <==> Blank(s)
  {
    TrimStartProperties(s);
    TrimEndProperties(TrimStart(s));
    TrimParts(s, TrimStart(s), TrimEnd(TrimStart(s)));
  }

  lemma TrimParts(s: string, t: string, r: string)
    requires |t| <= |s| && t == s[|s| - |t|..] && Blank(s[..|s| - |t|])
    requires t == [] || !IsWhitespace(t[0])
    requires r <= t && Blank(t[|r|..])
    requires r == [] || !IsWhitespace(r[|r| - 1])
    ensures Trimmed(r)
    ensures forall c :: c in r ==> c in s
    ensures r == [] <==> Blank(s)
  {
    var m := |s| - |t|;
    if t != [] {
      assert |r| < |t| ==> t[|r|..][0] == t[|r|] && IsWhitespace(t[|r|]);
      assert r != [];
      assert r[0] == t[0] == s[m];
    } else {
      assert s[..m] == s;
    }
    forall c | c in r ensures c in s {
      var i :| 0 <= i < |r| && r[i] == c;
      assert t[i] == c;
      assert s[m + i] == c;
    }
  }

  /** A `'\r'` that ended a line before its `'\n'` is not part of the line. */
  function DropCarriageReturn(line: string): string
  {
    if line != [] && line[|line| - 1] == '\r' then line[..|line| - 1] else line
  }

  /** The search stops at the first occurrence: `c` at `i` with none before
      it is where `IndexOf` finds it. */
  lemma IndexOfFirst(s: string, c: char, i: nat)
    requires i < |s| && s[i] == c && c !in s[..i]
    ensures IndexOf(s, c) == i
  {
    var k := IndexOf(s, c);
    forall m | 0 <= m < i ensures s[m] != c {
      assert s[..i][m] == s[m];
    }
    forall m | 0 <= m < k ensures s[m] != c {
      assert s[..k][m] == s[m];
    }
  }

  /** `s.lines()`: the pieces between `'\n'`s, each without a `'\r'` that
      stood just before its `'\n'`; a final `'\n'` does not open an empty
      last line, and the empty string has no lines. */
  function Lines(s: string): (ls: seq<string>)
    ensures (ls == []) == (s == [])
    ensures forall i :: 0 <= i < |ls| ==> '\n' !in ls[i]
    decreases |s|
  {
    if s == [] then []
    else
      var k := IndexOf(s, '\n');
      if k == |s| then [s]
      else [DropCarriageReturn(s[..k])] + Lines(s[k + 1..])
  }

  /** `parts.join(sep)` */
  function Join(parts: seq<string>, sep: string): string
  {
    if parts == [] then []
    else if |parts| == 1 then parts[0]
    else parts[0] + sep + Join(parts[1..], sep)
  }

  /** Splitting into lines and joining them back with `"\n"` gives the text
      back, when it holds no `'\r'` and does not end in a `'\n'`. */
  lemma {:induction false} JoinLines(s: string)
    requires '\r' !in s
    requires s == [] || s[|s| - 1] != '\n'
    ensures Join(Lines(s), "\n") == s
    decreases |s|
  {
    if s != [] {
      var k := IndexOf(s, '\n');
      if k < |s| {
        var head, t := s[..k], s[k + 1..];
        assert s == head + "\n" + t;
        assert '\r' !in head && '\r' !in t;
        assert t != [] && t[|t| - 1] == s[|s| - 1];
        JoinLines(t);
        assert DropCarriageReturn(head) == head;
        assert Lines(s) == [head] + Lines(t);
      }
    }
  }

  /** `lines()` cuts a text without carriage returns at its first newline. */
  lemma LinesAtFirstNewline(s: string, k: nat)
    requires '\r' !in s && k < |s| && s[k] == '\n' && '\n' !in s[..k]
    ensures Lines(s) == [s[..k]] + Lines(s[k + 1..])
  {
    IndexOfFirst(s, '\n', k);
    assert k > 0 ==> s[..k][k - 1] == s[k - 1];
  }

  /** `lines()` also ends a line at `"\r\n"`, and neither character is
      part of the line. */
  lemma LinesAtFirstCrlf(s: string, k: nat)
    requires 0 < k < |s| && s[k - 1] == '\r' && s[k] == '\n' && '\n' !in s[..k]
    ensures Lines(s) == [s[..k - 1]] + Lines(s[k + 1..])
  {
    IndexOfFirst(s, '\n', k);
    assert s[..k][k - 1] == '\r';
    assert s[..k][..k - 1] == s[..k - 1];
  }

  /** The text made of `lines`, each followed by `ending`. */
  function Terminated(lines: seq<string>, ending: string): string
  {
    if lines == [] then [] else lines[0] + ending + Terminated(lines[1..], ending)
  }

  /** A text whose lines all end in `"\r\n"` splits back into those lines. */
  lemma {:induction false} LinesOfCrlfText(lines: seq<string>)
    requires forall i :: 0 <= i < |lines| ==> '\n' !in lines[i]
    ensures Lines(Terminated(lines, "\r\n")) == lines
  {
    if lines != [] {
      var head, rest := lines[0], Terminated(lines[1..], "\r\n");
      var s, k := head + "\r\n" + rest, |head| + 1;
      assert s[..k] == head + "\r";
      assert s[..k - 1] == head && s[k + 1..] == rest;
      LinesAtFirstCrlf(s, k);
      LinesOfCrlfText(lines[1..]);
    }
  }

  /** A final `'\n'` ends the last line without starting another one:
      joining the lines back gives the text without it. */
  lemma {:induction false} JoinLinesFinalNewline(s: string)
    requires '\r' !in s && s != [] && s[|s| - 1] == '\n'
    ensures Join(Lines(s), "\n") == s[..|s| - 1]
    decreases |s|
  {
    var k := IndexOf(s, '\n');
    LinesAtFirstNewline(s, k);
    var head, t := s[..k], s[k + 1..];
    if t != [] {
      assert t[|t| - 1] == '\n' && '\r' !in t;
      JoinLinesFinalNewline(t);
      JoinCons(head, Lines(t), "\n");
      DropLastAfterCut(s, k);
    }
  }

  /** Joining a part in front of a non-empty list puts the separator between. */
  lemma JoinCons(head: string, rest: seq<string>, sep: string)
    requires rest != []
    ensures Join([head] + rest, sep) == head + sep + Join(rest, sep)
  {
    assert ([head] + rest)[1..] == rest;
  }

  /** Cutting at a newline before the last character and dropping the last
      character of the text drops the last character of the part after the
      newline. */
  lemma DropLastAfterCut(s: string, k: nat)
    requires k < |s| - 1 && s[k] == '\n'
    ensures s[..|s| - 1] == s[..k] + "\n" + s[k + 1..][..|s| - k - 2]
  {
  }

  predicate IsDigit(c: char) { '0' <= c <= '9' }

  predicate AllDigits(s: string)
  {
    forall i :: 0 <= i < |s| ==> IsDigit(s[i])
  }

  function DigitValue(c: char): nat
    requires IsDigit(c)
  {
    (c as int) - ('0' as int)
  }

  function DigitChar(d: nat): (c: char)
    requires d < 10
    ensures IsDigit(c) && DigitValue(c) == d
  {
    (('0' as int) + d) as char
  }

  /** The value of a string of decimal digits, most significant first. */
  function DecimalValue(s: string): nat
    requires AllDigits(s)
  {
    if s == [] then 0 else 10 * DecimalValue(s[..|s| - 1]) + DigitValue(s[|s| - 1])
  }

  /** `n.to_string()` for an unsigned integer: decimal digits without
      leading zeros. */
  function NatToString(n: nat): (r: string)
    ensures r != [] && AllDigits(r)
    ensures r[0] == '0' <==> n == 0
    ensures n == 0 ==> r == "0"
  {
    if n < 10 then [DigitChar(n)] else NatToString(n / 10) + [DigitChar(n % 10)]
  }

  lemma {:induction false} DecimalRoundTrip(n: nat)
    ensures DecimalValue(NatToString(n)) == n
  {
    if n >= 10 {
      DecimalRoundTrip(n / 10);
      var s := NatToString(n);
      assert s[..|s| - 1] == NatToString(n / 10);
    }
  }

  /** 2^64: `u64` values lie below it. */
  const U64Bound: nat := 0x1_0000_0000_0000_0000

  /** `s.parse::<u64>()`: an optional `'+'`, then at least one decimal digit,
      and a value that fits in 64 bits. */
  function ParseU64(s: string): (r: Option<nat>)
    ensures var digits := if s != [] && s[0] == '+' then s[1..] else s;
      && (r.Some? <==> digits != [] && AllDigits(digits) && DecimalValue(digits) < U64Bound)
      && (r.Some? ==> r.value == DecimalValue(digits))
    ensures r.Some? ==> r.value < U64Bound
  {
    var digits := if s != [] && s[0] == '+' then s[1..] else s;
    if digits == [] || !AllDigits(digits) then None
    else if DecimalValue(digits) >= U64Bound then None
    else Some(DecimalValue(digits))
  }

  lemma ParseU64OfToString(n: nat)
    requires n < U64Bound
    ensures ParseU64(NatToString(n)) == Some(n)
  {
    DecimalRoundTrip(n);
  }
}
