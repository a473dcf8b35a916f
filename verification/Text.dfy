/** Rust's `str` operations that the parsers call, on sequences of Unicode scalar values. */
module Text {
  import opened Wrappers

  type byte = x: int | 0 <= x < 256

  // ------ Searching and splitting ----------------------------

  /** The first position of `c`, or the length when there is none. */
  function Find(s: string, c: char): (n: nat)
    ensures n <= |s|
    ensures c !in s[..n]
    ensures n < |s| ==> s[n] == c
  {
    if s == "" || s[0] == c then 0
    else
      var m := Find(s[1..], c);
      assert s[..m + 1] == [s[0]] + s[1..][..m];
      m + 1
  }

  lemma {:induction false} FindAt(a: string, c: char, b: string)
    requires c !in a
    ensures Find(a + [c] + b, c) == |a|
  {
    var s := a + [c] + b;
    if a != "" {
      FindAt(a[1..], c, b);
      assert s[1..] == a[1..] + [c] + b;
    }
  }

  lemma FindNone(s: string, c: char)
    requires c !in s
    ensures Find(s, c) == |s|
  {
  }

  /** `str::split_once` */
  function SplitOnce(s: string, c: char): Option<(string, string)> {
    var n := Find(s, c);
    if n == |s| then None else Some((s[..n], s[n + 1..]))
  }

  lemma SplitOnceAt(a: string, c: char, b: string)
    requires c !in a
    ensures SplitOnce(a + [c] + b, c) == Some((a, b))
  {
    FindAt(a, c, b);
    var s := a + [c] + b;
    assert s[..|a|] == a && s[|a| + 1..] == b;
  }

  lemma SplitOnceInverse(s: string, c: char)
    ensures match SplitOnce(s, c)
            case Some((a, b)) => s == a + [c] + b && c !in a
            case None => c !in s
  {
    var n := Find(s, c);
    if n < |s| {
      assert s == s[..n] + [c] + s[n + 1..];
    } else {
      assert s[..n] == s;
    }
  }

  /** `str::split` by one character: always at least one piece. */
  function Split(s: string, c: char): (pieces: seq<string>)
    ensures |pieces| >= 1
    decreases |s|
  {
    var n := Find(s, c);
    if n == |s| then [s] else [s[..n]] + Split(s[n + 1..], c)
  }

  /** The pieces of a split, joined again by the separator. */
  function Join(pieces: seq<string>, c: char): string {
    if pieces == [] then ""
    else if |pieces| == 1 then pieces[0]
    else pieces[0] + [c] + Join(pieces[1..], c)
  }

  lemma SplitStep(a: string, c: char, rest: string)
    requires c !in a
    ensures Split(a + [c] + rest, c) == [a] + Split(rest, c)
  {
    var s := a + [c] + rest;
    FindAt(a, c, rest);
    assert s[..|a|] == a && s[|a| + 1..] == rest;
  }

  lemma JoinStep(a: string, c: char, pieces: seq<string>)
    requires pieces != []
    ensures Join([a] + pieces, c) == a + [c] + Join(pieces, c)
  {
  }

  lemma {:induction false} JoinSplit(s: string, c: char)
    ensures Join(Split(s, c), c) == s
    ensures forall p <- Split(s, c) :: c !in p
    decreases |s|
  {
    var n := Find(s, c);
    if n == |s| {
      assert s[..n] == s;
    } else {
      var a, rest := s[..n], s[n + 1..];
      assert s == a + [c] + rest;
      JoinSplit(rest, c);
      SplitStep(a, c, rest);
      JoinStep(a, c, Split(rest, c));
    }
  }

  lemma {:induction false} SplitJoin(pieces: seq<string>, c: char)
    requires pieces != [] && forall p <- pieces :: c !in p
    ensures Split(Join(pieces, c), c) == pieces
  {
    if |pieces| == 1 {
      FindNone(pieces[0], c);
    } else {
      SplitJoin(pieces[1..], c);
      SplitStep(pieces[0], c, Join(pieces[1..], c));
      assert pieces == [pieces[0]] + pieces[1..];
    }
  }

  // ------ Lines ----------------------------

  function StripCr(line: string): string {
    if line != "" && line[|line| - 1] == '\r' then line[..|line| - 1] else line
  }

  /** `str::lines`: a line ends at LF or CR LF; a CR that ends the text without LF is kept. */
  function Lines(s: string): seq<string>
    decreases |s|
  {
    if s == "" then []
    else
      var n := Find(s, '\n');
      if n == |s| then [s] else [StripCr(s[..n])] + Lines(s[n + 1..])
  }

  predicate CleanLine(line: string) {
    '\n' !in line && (line == "" || line[|line| - 1] != '\r')
  }

  predicate CleanLines(lines: seq<string>) {
    forall l <- lines :: CleanLine(l)
  }

  /** Every line followed by LF. */
  function Terminated(lines: seq<string>): string {
    if lines == [] then "" else lines[0] + "\n" + Terminated(lines[1..])
  }

  lemma LinesStep(line: string, rest: string)
    requires CleanLine(line)
    ensures Lines(line + "\n" + rest) == [line] + Lines(rest)
  {
    var s := line + "\n" + rest;
    FindAt(line, '\n', rest);
    assert s[..|line|] == line && s[|line| + 1..] == rest;
  }

  /** A carriage return before the line feed belongs to the line's end, and one without a line feed to the line. */
  lemma LinesEndings(line: string, rest: string)
    requires CleanLine(line)
    ensures Lines(line + "\r\n" + rest) == [line] + Lines(rest)
    ensures Lines(line + "\r") == [line + "\r"]
  {
    var text := line + "\r" + "\n" + rest;
    assert line + "\r\n" + rest == text;
    FindAt(line + "\r", '\n', rest);
    assert text[..|line| + 1] == line + "\r" && text[|line| + 2..] == rest;
    assert (line + "\r")[..|line|] == line;
    FindNone(line + "\r", '\n');
  }

  lemma {:induction false} LinesOfTerminated(lines: seq<string>, last: string)
    requires CleanLines(lines) && '\n' !in last
    ensures Lines(Terminated(lines) + last) == lines + (if last == "" then [] else [last])
  {
    if lines == [] {
      FindNone(last, '\n');
      assert Terminated(lines) + last == last;
    } else {
      var rest := Terminated(lines[1..]) + last;
      assert Terminated(lines) + last == lines[0] + "\n" + rest;
      LinesStep(lines[0], rest);
      LinesOfTerminated(lines[1..], last);
      assert lines == [lines[0]] + lines[1..];
    }
  }

  lemma {:induction false} TerminatedAppend(a: seq<string>, b: seq<string>)
    ensures Terminated(a + b) == Terminated(a) + Terminated(b)
  {
    if a == [] {
      assert a + b == b;
    } else {
      assert (a + b)[1..] == a[1..] + b;
      TerminatedAppend(a[1..], b);
    }
  }

  // ------ Trimming ----------------------------

  /** The Unicode White_Space property, which `char::is_whitespace` tests. */
  predicate IsWhitespace(c: char) {
    var n := c as int;
    9 <= n <= 13 || n == 32 || n == 0x85 || n == 0xA0 || n == 0x1680 || 0x2000 <= n <= 0x200A
    || n == 0x2028 || n == 0x2029 || n == 0x202F || n == 0x205F || n == 0x3000
  }

  function TrimStart(s: string): string {
    if s != "" && IsWhitespace(s[0]) then TrimStart(s[1..]) else s
  }

  function TrimEnd(s: string): string {
    if s != "" && IsWhitespace(s[|s| - 1]) then TrimEnd(s[..|s| - 1]) else s
  }

  /** `str::trim` */
  function Trim(s: string): string {
    TrimEnd(TrimStart(s))
  }

  predicate Trimmed(s: string) {
    s == "" || (!IsWhitespace(s[0]) && !IsWhitespace(s[|s| - 1]))
  }

  lemma {:induction false} TrimEndAfter(a: string, b: string)
    requires a != "" && !IsWhitespace(a[|a| - 1])
    ensures TrimEnd(a + b) == a + TrimEnd(b)
  {
    if b == "" {
      assert a + b == a;
    } else if IsWhitespace(b[|b| - 1]) {
      assert (a + b)[..|a + b| - 1] == a + b[..|b| - 1];
      TrimEndAfter(a, b[..|b| - 1]);
    }
  }

  /** `str::trim_end_matches('\n')` */
  function TrimEndNewlines(s: string): string {
    if s != "" && s[|s| - 1] == '\n' then TrimEndNewlines(s[..|s| - 1]) else s
  }

  lemma {:induction false} TrimStartSnoc(s: string, c: char)
    requires IsWhitespace(c)
    ensures TrimStart(s + [c]) == if TrimStart(s) == "" then "" else TrimStart(s) + [c]
  {
    if s == "" {
      assert s + [c] == [c] && [c][1..] == "";
    } else {
      assert (s + [c])[1..] == s[1..] + [c];
      TrimStartSnoc(s[1..], c);
    }
  }

  /** A full trim does not see that newlines were trimmed before. */
  lemma {:induction false} TrimAfterNewlines(s: string)
    ensures Trim(TrimEndNewlines(s)) == Trim(s)
  {
    if s != "" && s[|s| - 1] == '\n' {
      var init := s[..|s| - 1];
      assert s == init + ['\n'];
      TrimAfterNewlines(init);
      TrimStartSnoc(init, '\n');
      assert (TrimStart(init) + ['\n'])[..|TrimStart(init)|] == TrimStart(init);
    }
  }

  /** `str::trim_matches('"')` */
  function TrimQuotes(s: string): string {
    TrimEndQuotes(TrimStartQuotes(s))
  }

  function TrimStartQuotes(s: string): string {
    if s != "" && s[0] == '"' then TrimStartQuotes(s[1..]) else s
  }

  function TrimEndQuotes(s: string): string {
    if s != "" && s[|s| - 1] == '"' then TrimEndQuotes(s[..|s| - 1]) else s
  }

  /** `str::split_whitespace`: the maximal runs of non-whitespace. */
  function Words(s: string): (words: seq<string>)
    ensures forall w <- words :: w != "" && forall c <- w :: !IsWhitespace(c)
    decreases |s|
  {
    if s == "" then []
    else if IsWhitespace(s[0]) then Words(s[1..])
    else
      var n := WordLength(s);
      [s[..n]] + Words(s[n..])
  }

  function WordLength(s: string): (n: nat)
    ensures n <= |s|
    ensures forall c <- s[..n] :: !IsWhitespace(c)
    ensures n < |s| ==> IsWhitespace(s[n])
    ensures s != "" && !IsWhitespace(s[0]) ==> n > 0
  {
    if s == "" || IsWhitespace(s[0]) then 0
    else
      var m := WordLength(s[1..]);
      assert s[..m + 1] == [s[0]] + s[1..][..m];
      m + 1
  }

  // ------ Decimal numbers ----------------------------

  const USIZE_MAX: nat := 0xFFFF_FFFF_FFFF_FFFF
  const U32_MAX: nat := 0xFFFF_FFFF
  const ISIZE_MAX: nat := 0x7FFF_FFFF_FFFF_FFFF

  predicate IsDigit(c: char) {
    '0' <= c <= '9'
  }

  predicate AllDigits(s: string) {
    forall c <- s :: IsDigit(c)
  }

  function Digit(n: nat): (c: char)
    requires n < 10
    ensures IsDigit(c) && c as int - '0' as int == n
  {
    (n + '0' as int) as char
  }

  /** The decimal form that `Display` writes for an unsigned number. */
  function Decimal(n: nat): (s: string)
    ensures s != "" && AllDigits(s)
  {
    if n < 10 then [Digit(n)] else Decimal(n / 10) + [Digit(n % 10)]
  }

  function Value(digits: string): nat
    requires AllDigits(digits)
  {
    if digits == "" then 0
    else
      var last := digits[|digits| - 1];
      assert IsDigit(last);
      10 * Value(digits[..|digits| - 1]) + (last as int - '0' as int)
  }

  lemma {:induction false} ValueOfDecimal(n: nat)
    ensures Value(Decimal(n)) == n
  {
    if n >= 10 {
      ValueOfDecimal(n / 10);
      var s := Decimal(n / 10) + [Digit(n % 10)];
      assert s[..|s| - 1] == Decimal(n / 10);
    }
  }

  /** `FromStr` of an unsigned integer: an optional `+`, then at least one digit, no overflow. */
  function ParseUnsigned(s: string, max: nat): Option<nat> {
    var digits := if s != "" && s[0] == '+' then s[1..] else s;
    if digits != "" && AllDigits(digits) && Value(digits) <= max then Some(Value(digits)) else None
  }

  lemma ParseDecimal(n: nat, max: nat)
    requires n <= max
    ensures ParseUnsigned(Decimal(n), max) == Some(n)
  {
    ValueOfDecimal(n);
    assert IsDigit(Decimal(n)[0]);
  }

  predicate AllZeros(s: string) {
    forall c <- s :: c == '0'
  }

  lemma {:induction false} ValueAfterZeros(zeros: string, digits: string)
    requires AllZeros(zeros) && AllDigits(digits)
    ensures AllDigits(zeros + digits) && Value(zeros + digits) == Value(digits)
  {
    if digits != "" {
      var n := |digits| - 1;
      assert forall c <- digits[..n] :: c in digits;
      ValueAfterZeros(zeros, digits[..n]);
      assert zeros + digits == (zeros + digits[..n]) + [digits[n]];
      assert (zeros + digits)[..|zeros| + n] == zeros + digits[..n];
    } else if zeros != "" {
      var n := |zeros| - 1;
      assert zeros[n] in zeros && forall c <- zeros[..n] :: c in zeros;
      ValueAfterZeros(zeros[..n], "");
      assert zeros[..n] + "" == zeros[..n] && zeros + "" == zeros;
    }
  }

  /** A number in decimal, with leading zeros. */
  ghost predicate SpellsDigits(s: string, n: nat) {
    exists zeros :: AllZeros(zeros) && s == zeros + Decimal(n)
  }

  /** A number in decimal, with or without a plus sign and leading zeros. */
  ghost predicate Spells(s: string, n: nat) {
    SpellsDigits(s, n) || (s != "" && s[0] == '+' && SpellsDigits(s[1..], n))
  }

  lemma SpelledDigits(s: string, n: nat)
    requires SpellsDigits(s, n)
    ensures s != "" && AllDigits(s) && Value(s) == n
  {
    var zeros :| AllZeros(zeros) && s == zeros + Decimal(n);
    ValueOfDecimal(n);
    ValueAfterZeros(zeros, Decimal(n));
  }

  lemma {:induction false} DigitsSpell(s: string) returns (zeros: string)
    requires s != "" && AllDigits(s)
    ensures AllZeros(zeros) && s == zeros + Decimal(Value(s))
  {
    var (init, c) := (s[..|s| - 1], s[|s| - 1]);
    assert IsDigit(c) && s == init + [c];
    if init == "" {
      zeros := "";
      assert Value(init) == 0;
    } else {
      assert forall d <- init :: d in s;
      zeros := DigitsSpell(init);
      if Value(init) == 0 {
        assert init == zeros + "0";
        zeros := init;
      } else {
        assert Decimal(Value(s)) == Decimal(Value(init)) + [c];
      }
    }
  }

  lemma DigitsExactly(s: string, n: nat)
    ensures SpellsDigits(s, n) <==> s != "" && AllDigits(s) && Value(s) == n
  {
    if SpellsDigits(s, n) {
      SpelledDigits(s, n);
    }
    if s != "" && AllDigits(s) {
      var zeros := DigitsSpell(s);
    }
  }

  /** The readings of an unsigned number are exactly its spellings: decimal, up to the maximum, with or without a plus
      sign and leading zeros. */
  lemma UnsignedExactly(s: string, max: nat, n: nat)
    ensures ParseUnsigned(s, max) == Some(n) <==> n <= max && Spells(s, n)
  {
    hide Decimal, Value;
    DigitsExactly(s, n);
    if s != "" {
      DigitsExactly(s[1..], n);
      assert AllDigits(s) ==> IsDigit(s[0]);
    }
  }

  /** `Display` of a signed integer. */
  function SignedDecimal(n: int): string {
    if n < 0 then "-" + Decimal(-n) else Decimal(n)
  }

  /** `isize::from_str` */
  function ParseIsize(s: string): Option<int> {
    if s != "" && s[0] == '-' then
      var digits := s[1..];
      if digits != "" && AllDigits(digits) && Value(digits) <= ISIZE_MAX + 1 then Some(-(Value(digits) as int))
      else None
    else ParseUnsigned(s, ISIZE_MAX)
  }

  lemma ParseSignedDecimal(n: int)
    requires -(ISIZE_MAX as int) - 1 <= n <= ISIZE_MAX
    ensures ParseIsize(SignedDecimal(n)) == Some(n)
    ensures forall c <- SignedDecimal(n) :: c == '-' || IsDigit(c)
  {
    if n < 0 {
      ValueOfDecimal(-n);
      assert SignedDecimal(n)[1..] == Decimal(-n);
    } else {
      ParseDecimal(n, ISIZE_MAX);
      assert IsDigit(Decimal(n)[0]);
    }
  }

  ghost predicate SpellsSigned(s: string, n: int) {
    || (0 <= n <= ISIZE_MAX && Spells(s, n))
    || (-(ISIZE_MAX as int) - 1 <= n <= 0 && s != "" && s[0] == '-' && SpellsDigits(s[1..], -n))
  }

  /** The same for a signed number, with a minus sign for the negative ones; a minus zero is zero. */
  lemma SignedExactly(s: string, n: int)
    ensures ParseIsize(s) == Some(n) <==> SpellsSigned(s, n)
  {
    hide Decimal, Value;
    if n >= 0 {
      UnsignedExactly(s, ISIZE_MAX, n);
      DigitsExactly(s, n);
    }
    if n <= 0 && s != "" {
      DigitsExactly(s[1..], -n);
    }
    assert s != "" && s[0] == '-' && n >= 0 ==> !Spells(s, n) by {
      if s != "" && s[0] == '-' && n >= 0 {
        assert s[0] in s && !IsDigit(s[0]);
      }
    }
  }
}
