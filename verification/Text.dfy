/** Python's string operations that the programs use: `split`, `join`, `strip`, `lower` and decimal numbers. */
module Text {
  // ---- white space ----

  /** The characters for which `str.isspace` holds. */
  predicate IsSpace(c: char) {
    || '\t' <= c <= '\r' || '\U{1c}' <= c <= ' ' || c == '\U{85}' || c == '\U{a0}' || c == '\U{1680}'
    || '\U{2000}' <= c <= '\U{200a}' || '\U{2028}' <= c <= '\U{2029}' || c == '\U{202f}' || c == '\U{205f}'
    || c == '\U{3000}'
  }

  predicate Blank(s: string) { forall i :: 0 <= i < |s| ==> IsSpace(s[i]) }

  predicate Solid(s: string) { forall i :: 0 <= i < |s| ==> !IsSpace(s[i]) }

  predicate Trimmed(s: string) { s != "" ==> !IsSpace(s[0]) && !IsSpace(s[|s| - 1]) }

  function LStrip(s: string): string { if s != "" && IsSpace(s[0]) then LStrip(s[1..]) else s }

  function RStrip(s: string): string {
    if s != "" && IsSpace(s[|s| - 1]) then RStrip(s[..|s| - 1]) else s
  }

  function Strip(s: string): string { RStrip(LStrip(s)) }

  lemma {:induction false} LStripPadding(pad: string, s: string)
    requires Blank(pad)
    ensures LStrip(pad + s) == LStrip(s)
  {
    if pad == "" {
      assert pad + s == s;
    } else {
      assert (pad + s)[1..] == pad[1..] + s;
      LStripPadding(pad[1..], s);
    }
  }

  lemma {:induction false} RStripPadding(s: string, pad: string)
    requires Blank(pad)
    ensures RStrip(s + pad) == RStrip(s)
  {
    if pad == "" {
      assert s + pad == s;
    } else {
      assert (s + pad)[..|s + pad| - 1] == s + pad[..|pad| - 1];
      RStripPadding(s, pad[..|pad| - 1]);
    }
  }

  lemma {:induction false} RStripAfter(s: string, c: char, t: string)
    requires !IsSpace(c)
    ensures RStrip(s + [c] + t) == s + [c] + RStrip(t)
  {
    var whole := s + [c] + t;
    if t == "" {
      assert whole == s + [c];
    } else {
      assert whole[..|whole| - 1] == s + [c] + t[..|t| - 1];
      RStripAfter(s, c, t[..|t| - 1]);
    }
  }

  lemma RStripPadded(left: string, s: string, right: string)
    requires Blank(left) && Blank(right) && Trimmed(s)
    ensures RStrip(left + s + right) == if s == "" then "" else left + s
  {
    if s == "" {
      assert left + s + right == "" + (left + right);
      RStripPadding("", left + right);
    } else {
      RStripPadding(left + s, right);
    }
  }

  lemma StripPadded(left: string, s: string, right: string)
    requires Blank(left) && Blank(right) && Trimmed(s)
    ensures Strip(left + s + right) == s
  {
    assert left + s + right == left + (s + right);
    LStripPadding(left, s + right);
    if s == "" {
      assert s + right == right + "";
      LStripPadding(right, "");
    } else {
      RStripPadding(s, right);
    }
  }

  /** `strip` leaves nothing exactly of blank text. */
  lemma {:induction false} StripEmptyIff(s: string)
    ensures Strip(s) == "" <==> Blank(s)
  {
    if s != "" {
      if IsSpace(s[0]) {
        StripEmptyIff(s[1..]);
        assert s == [s[0]] + s[1..];
      } else {
        RStripAfter("", s[0], s[1..]);
        assert "" + [s[0]] + s[1..] == s;
      }
    }
  }

  // ---- lines ----

  function Split(s: string, separator: char): (parts: seq<string>)
    ensures |parts| > 0
  {
    if s == "" then [""]
    else
      var rest := Split(s[1..], separator);
      if s[0] == separator then [""] + rest else [[s[0]] + rest[0]] + rest[1..]
  }

  function Join(parts: seq<string>, separator: char): string {
    if parts == [] then ""
    else if |parts| == 1 then parts[0]
    else parts[0] + [separator] + Join(parts[1..], separator)
  }

  lemma {:induction false} JoinSplit(s: string, separator: char)
    ensures Join(Split(s, separator), separator) == s
  {
    if s != "" {
      JoinSplit(s[1..], separator);
      var rest := Split(s[1..], separator);
      if s[0] != separator {
        var parts := [[s[0]] + rest[0]] + rest[1..];
        assert parts[1..] == rest[1..];
        if |rest| > 1 { assert Join(parts, separator) == [s[0]] + Join(rest, separator); }
      } else {
        assert ([""] + rest)[1..] == rest;
      }
    }
  }

  lemma {:induction false} SplitLine(line: string, rest: string, separator: char)
    requires separator !in line
    ensures Split(line + [separator] + rest, separator) == [line] + Split(rest, separator)
  {
    var s := line + [separator] + rest;
    if line == "" {
      assert s[1..] == rest;
    } else {
      assert s[1..] == line[1..] + [separator] + rest;
      assert separator !in line[1..] && line == [line[0]] + line[1..];
      SplitLine(line[1..], rest, separator);
      assert ([line[1..]] + Split(rest, separator))[1..] == Split(rest, separator);
    }
  }

  lemma {:induction false} SplitWhole(line: string, separator: char)
    requires separator !in line
    ensures Split(line, separator) == [line]
  {
    if line != "" {
      assert separator !in line[1..] && line == [line[0]] + line[1..];
      SplitWhole(line[1..], separator);
    }
  }

  // ---- words ----

  /** How many leading characters are not white space. */
  function WordLength(s: string): (n: nat)
    ensures n <= |s|
  {
    if s == "" || IsSpace(s[0]) then 0 else 1 + WordLength(s[1..])
  }

  /** `split` without a separator. */
  function Words(s: string): seq<string>
    decreases |s|
  {
    if s == "" then []
    else if IsSpace(s[0]) then Words(s[1..])
    else
      var n := WordLength(s);
      [s[..n]] + Words(s[n..])
  }

  lemma {:induction false} FirstWord(word: string, gap: char, rest: string)
    requires word != "" && Solid(word) && IsSpace(gap)
    ensures Words(word + [gap] + rest) == [word] + Words(rest)
  {
    var s := word + [gap] + rest;
    WordLengthIs(word, gap, rest);
    assert s[..|word|] == word && s[|word|..] == [gap] + rest;
    assert ([gap] + rest)[1..] == rest;
  }

  lemma {:induction false} WordLengthIs(word: string, gap: char, rest: string)
    requires Solid(word) && IsSpace(gap)
    ensures WordLength(word + [gap] + rest) == |word|
  {
    var s := word + [gap] + rest;
    if word != "" {
      assert s[1..] == word[1..] + [gap] + rest;
      WordLengthIs(word[1..], gap, rest);
    }
  }

  // ---- case ----

  function LowerChar(c: char): char { if 'A' <= c <= 'Z' then c + 32 as char else c }

  function Lower(s: string): (r: string)
    ensures |r| == |s|
  {
    seq(|s|, i requires 0 <= i < |s| => LowerChar(s[i]))
  }

  function UpperChar(c: char): char { if 'a' <= c <= 'z' then c - 32 as char else c }

  function Upper(s: string): (r: string)
    ensures |r| == |s|
  {
    seq(|s|, i requires 0 <= i < |s| => UpperChar(s[i]))
  }

  const CAPITALS := "ABCDEFGHIJKLMNOPQRSTUVWXYZ"
  const SMALL_LETTERS := "abcdefghijklmnopqrstuvwxyz"

  /** Letter by letter, and nothing else changes. */
  lemma LowerIsExact(s: string, i: nat)
    requires i < |s|
    ensures forall k :: 0 <= k < 26 && s[i] == CAPITALS[k] ==> Lower(s)[i] == SMALL_LETTERS[k]
    ensures s[i] !in CAPITALS ==> Lower(s)[i] == s[i]
    ensures Lower(s)[i] !in CAPITALS
  {
    LettersAreInOrder(s[i]);
    LettersAreInOrder(Lower(s)[i]);
  }

  lemma UpperIsExact(s: string, i: nat)
    requires i < |s|
    ensures forall k :: 0 <= k < 26 && s[i] == SMALL_LETTERS[k] ==> Upper(s)[i] == CAPITALS[k]
    ensures s[i] !in SMALL_LETTERS ==> Upper(s)[i] == s[i]
    ensures Upper(s)[i] !in SMALL_LETTERS
  {
    LettersAreInOrder(s[i]);
    LettersAreInOrder(Upper(s)[i]);
  }

  lemma LettersAreInOrder(c: char)
    ensures |CAPITALS| == 26 && |SMALL_LETTERS| == 26
    ensures forall k :: 0 <= k < 26 ==> CAPITALS[k] == 'A' + k as char && SMALL_LETTERS[k] == 'a' + k as char
    ensures c in CAPITALS <==> 'A' <= c <= 'Z'
    ensures c in SMALL_LETTERS <==> 'a' <= c <= 'z'
  {
    if 'A' <= c <= 'Z' { assert CAPITALS[(c - 'A') as int] == c; }
    if 'a' <= c <= 'z' { assert SMALL_LETTERS[(c - 'a') as int] == c; }
  }

  // ---- decimal numbers ----

  predicate IsDigit(c: char) { '0' <= c <= '9' }

  function Digit(n: nat): char
    requires n < 10
  {
    '0' + n as char
  }

  function Digits(n: nat): (s: string)
    ensures s != "" && forall i :: 0 <= i < |s| ==> IsDigit(s[i])
  {
    if n < 10 then [Digit(n)] else Digits(n / 10) + [Digit(n % 10)]
  }

  function ReadDigits(s: string): nat
    requires forall i :: 0 <= i < |s| ==> IsDigit(s[i])
  {
    if s == "" then 0
    else
      assert IsDigit(s[|s| - 1]);
      10 * ReadDigits(s[..|s| - 1]) + (s[|s| - 1] - '0') as nat
  }

  lemma {:induction false} ReadPrinted(n: nat)
    ensures ReadDigits(Digits(n)) == n
  {
    if n >= 10 {
      ReadPrinted(n / 10);
      assert Digits(n)[..|Digits(n)| - 1] == Digits(n / 10);
    } else {
      assert [Digit(n)][..0] == "";
    }
  }

  lemma DigitsAreSolid(n: nat)
    ensures Solid(Digits(n)) && Trimmed(Digits(n))
  {
  }
}
