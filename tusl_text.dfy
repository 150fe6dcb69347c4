/** Source text for the tusl virtual machine (tusl.c): the tokenizer
    `get_token`, the numeral reader `parse_number` and the decimal printer
    behind `.`. Characters stand for the bytes of the C input; where the C
    code looks at a byte it sees the character's code modulo 256, read as a
    signed `char`. */
module TuslText {
  import opened Cells
  import opened TuslPrims

  /** The value `get_char` returns for a character: a signed `char`. The
      byte 0xFF therefore reads as `EOF`. */
  function Code(c: char): (k: int)
    ensures -128 <= k < 128
  {
    var b := c as int % 256;
    if b < 128 then b else b - 256
  }

  const Eof: int := -1

  /** `isspace` in the C locale. */
  predicate IsSpace(c: char) {
    var k := Code(c);
    k == 32 || 9 <= k <= 13
  }

  /** What the opening loop of `get_token` skips: white space but newline. */
  predicate Blank(c: char) {
    IsSpace(c) && Code(c) != 10
  }

  /** Characters that make a token by themselves: newline and the
      punctuation `\ ' : ( )` (and the NUL that `strchr` finds as the
      terminator of its set). */
  predicate Single(c: char) {
    var k := Code(c);
    k == 10 || k == 92 || k == 39 || k == 58 || k == 40 || k == 41 || k == 36 || k == 0
  }

  /** Characters before which a plain token stops: white space, the quotes
      and the punctuation (and NUL, for the same reason). */
  predicate StopsWord(c: char) {
    var k := Code(c);
    k == 32 || k == 9 || k == 13 || k == 10 || k == 34 || k == 96
    || k == 92 || k == 39 || k == 58 || k == 40 || k == 41 || k == 36 || k == 0
  }

  /** The outcome of one `get_token`. */
  datatype TokenResult = Token(text: string) | NoToken | BadToken(message: string)

  /** A token outcome and how many input characters were consumed. */
  datatype Lexed = Lexed(result: TokenResult, used: nat)

  /** The index of the first character at or after `i` that the opening
      loop does not skip. */
  function SkipBlanks(s: string, i: nat): (k: nat)
    requires i <= |s|
    ensures i <= k <= |s|
    ensures k < |s| ==> !Blank(s[k])
    decreases |s| - i
  {
    if i < |s| && Blank(s[i]) then SkipBlanks(s, i + 1) else i
  }

  /** The end of a plain token's run starting at `i`: the first stop
      character or EOF byte, or the end of input. */
  function WordEnd(s: string, i: nat): (j: nat)
    requires i <= |s|
    ensures i <= j <= |s|
    ensures j < |s| ==> StopsWord(s[j]) || Code(s[j]) == Eof
    decreases |s| - i
  {
    if i < |s| && !StopsWord(s[i]) && Code(s[i]) != Eof then WordEnd(s, i + 1) else i
  }

  /** The end of a string literal's body starting at `i`: the first
      delimiter or EOF byte, or the end of input. */
  function StringEnd(s: string, i: nat, delim: char): (j: nat)
    requires i <= |s|
    ensures i <= j <= |s|
    ensures j < |s| ==> Code(s[j]) == Code(delim) || Code(s[j]) == Eof
    decreases |s| - i
  {
    if i < |s| && Code(s[i]) != Code(delim) && Code(s[i]) != Eof then StringEnd(s, i + 1, delim) else i
  }

  /** `get_token` on input `s` with a buffer of `size` characters. */
  function Scan(s: string, size: nat): (r: Lexed)
    requires size >= 3
    ensures r.used <= |s|
    ensures r.result != NoToken ==> r.used > 0
  {
    ScanAt(s, SkipBlanks(s, 0), size)
  }

  /** `get_token` once the opening loop has stopped at `k`. */
  function ScanAt(s: string, k: nat, size: nat): (r: Lexed)
    requires k <= |s| && size >= 3
    ensures k <= r.used <= |s|
    ensures r.result != NoToken ==> k < r.used
  {
    if k == |s| then Lexed(NoToken, k)
    else
      var c := s[k];
      if Code(c) == Eof then Lexed(NoToken, k + 1)
      else if Code(c) == 36 then
        if k + 1 == |s| then Lexed(BadToken("Unterminated character constant: " + [c]), k + 1)
        else if Code(s[k + 1]) == Eof then Lexed(BadToken("Unterminated character constant: " + [c]), k + 2)
        else Lexed(Token([c, s[k + 1]]), k + 2)
      else if Single(c) then Lexed(Token([c]), k + 1)
      else if Code(c) == 34 || Code(c) == 96 then ScanString(s, k, size)
      else ScanWord(s, k, size)
  }

  /** A string literal opened by `s[k]`: the token keeps the opening
      delimiter and drops the closing one. */
  function ScanString(s: string, k: nat, size: nat): (r: Lexed)
    requires k < |s| && size >= 3
    ensures k < r.used <= |s| && r.result != NoToken
  {
    var j := StringEnd(s, k + 1, s[k]);
    if j - k - 1 >= size - 1 then
      Lexed(BadToken("Token too long: " + s[k..k + size - 1] + "..."), k + size)
    else if j == |s| then Lexed(BadToken("Unterminated string constant: " + s[k..j]), j)
    else if Code(s[j]) == Eof then Lexed(BadToken("Unterminated string constant: " + s[k..j]), j + 1)
    else Lexed(Token(s[k..j]), j + 1)
  }

  /** A plain token starting at `s[k]`: it runs to the next stop character,
      EOF byte or end of input. An EOF byte that ends it is consumed. */
  function ScanWord(s: string, k: nat, size: nat): (r: Lexed)
    requires k < |s| && size >= 3
    ensures k < r.used <= |s| && r.result != NoToken
  {
    var j := WordEnd(s, k + 1);
    if j - k >= size then Lexed(BadToken("Token too long: " + s[k..k + size - 1] + "..."), k + size)
    else if j < |s| && Code(s[j]) == Eof then Lexed(Token(s[k..j]), j + 1)
    else Lexed(Token(s[k..j]), j)
  }

  /** `get_token` reports end of input exactly when the opening loop
      stopped at the end or at an EOF byte. */
  lemma ScanEndOfInput(s: string, k: nat, size: nat)
    requires k <= |s| && size >= 3
    ensures ScanAt(s, k, size).result == NoToken <==> k == |s| || Code(s[k]) == Eof
  {
  }

  /** A successful token starts at the first character the opening loop
      does not skip, and what it skipped is white space but newline. */
  lemma {:induction false} ScanSkipsBlanks(s: string, size: nat)
    requires size >= 3
    requires Scan(s, size).result.Token?
    ensures var k := SkipBlanks(s, 0);
            var t := Scan(s, size).result.text;
            |t| > 0 && k < |s| && t[0] == s[k] && forall i | 0 <= i < k :: Blank(s[i])
  {
    SkippedAreBlank(s, 0);
  }

  lemma {:induction false} SkippedAreBlank(s: string, i: nat)
    requires i <= |s|
    ensures forall j | i <= j < SkipBlanks(s, i) :: Blank(s[j])
    decreases |s| - i
  {
    if i < |s| && Blank(s[i]) {
      SkippedAreBlank(s, i + 1);
    }
  }

  /** `$` makes a two-character token of itself and the next character. */
  lemma CharacterToken(s: string, k: nat, size: nat)
    requires size >= 3
    requires k + 1 < |s| && Code(s[k]) == 36 && Code(s[k + 1]) != Eof
    ensures ScanAt(s, k, size) == Lexed(Token(s[k..k + 2]), k + 2)
  {
    assert s[k..k + 2] == [s[k], s[k + 1]];
  }

  /** Newline and `\ ' : ( )` are one-character tokens. */
  lemma SingleToken(s: string, k: nat, size: nat)
    requires size >= 3
    requires k < |s| && Single(s[k]) && Code(s[k]) != 36
    ensures ScanAt(s, k, size) == Lexed(Token([s[k]]), k + 1)
  {
  }

  /** A string token keeps its opening delimiter and drops the closing
      one, contains no delimiter in its body, and is an error at end of
      input. */
  lemma {:induction false} StringToken(s: string, k: nat, size: nat)
    requires size >= 3
    requires k < |s| && (Code(s[k]) == 34 || Code(s[k]) == 96)
    ensures var r := ScanAt(s, k, size);
            r.result.Token? ==>
              var t := r.result.text;
              t[0] == s[k] && r.used == k + |t| + 1 && Code(s[k + |t|]) == Code(s[k])
              && t == s[k..k + |t|]
              && forall i | 1 <= i < |t| :: Code(t[i]) != Code(s[k])
    ensures StringEnd(s, k + 1, s[k]) == |s| ==> ScanAt(s, k, size).result.BadToken?
  {
    StringBodyFree(s, k + 1, s[k]);
  }

  lemma {:induction false} StringBodyFree(s: string, i: nat, delim: char)
    requires i <= |s|
    ensures forall j | i <= j < StringEnd(s, i, delim) :: Code(s[j]) != Code(delim) && Code(s[j]) != Eof
    decreases |s| - i
  {
    if i < |s| && Code(s[i]) != Code(delim) && Code(s[i]) != Eof {
      StringBodyFree(s, i + 1, delim);
    }
  }

  /** A plain token has no stop character after its first, and it ends
      before a stop character, an EOF byte or the end of input. */
  lemma {:induction false} WordToken(s: string, k: nat, size: nat)
    requires size >= 3
    requires k < |s| && Code(s[k]) != Eof && !Single(s[k]) && Code(s[k]) != 34 && Code(s[k]) != 96
    ensures var r := ScanAt(s, k, size);
            r.result.Token? ==>
              var t := r.result.text;
              var e := k + |t|;
              t == s[k..e] && |t| <= size - 1
              && (forall i | 1 <= i < |t| :: !StopsWord(t[i]) && Code(t[i]) != Eof)
              && (e == |s| || StopsWord(s[e]) || Code(s[e]) == Eof)
  {
    WordBodyFree(s, k + 1);
  }

  lemma {:induction false} WordBodyFree(s: string, i: nat)
    requires i <= |s|
    ensures forall j | i <= j < WordEnd(s, i) :: !StopsWord(s[j]) && Code(s[j]) != Eof
    decreases |s| - i
  {
    if i < |s| && !StopsWord(s[i]) && Code(s[i]) != Eof {
      WordBodyFree(s, i + 1);
    }
  }

  /** "Token too long" is raised exactly when a plain token would need the
      buffer's last slot, which `append` keeps for the terminating NUL. */
  lemma WordTooLong(s: string, k: nat, size: nat)
    requires size >= 3
    requires k < |s| && Code(s[k]) != Eof && !Single(s[k]) && Code(s[k]) != 34 && Code(s[k]) != 96
    ensures ScanAt(s, k, size).result.BadToken? <==> WordEnd(s, k + 1) - k >= size
  {
  }

  /** What `strlen` and `strcpy` see of a token: the characters before its
      first NUL. */
  function CText(s: string): (t: string)
    ensures t <= s
    ensures forall i | 0 <= i < |t| :: Code(t[i]) != 0
    ensures |t| < |s| ==> Code(s[|t|]) == 0
    decreases |s|
  {
    if |s| == 0 || Code(s[0]) == 0 then [] else [s[0]] + CText(s[1..])
  }

  /** The bytes of a text, one per character. */
  function ToBytes(s: string): (b: seq<int>)
    ensures |b| == |s|
    ensures forall i | 0 <= i < |s| :: b[i] == s[i] as int % 256 && 0 <= b[i] < 256
  {
    seq(|s|, i requires 0 <= i < |s| => s[i] as int % 256)
  }

  /** The bytes of a C string's text hold no NUL. */
  lemma TextHasNoNul(s: string)
    ensures 0 !in ToBytes(CText(s))
  {
    var t := CText(s);
    forall i | 0 <= i < |t|
      ensures ToBytes(t)[i] != 0
    {
      assert Code(t[i]) != 0;
    }
  }

  /** The text of a run of bytes, one character per byte. */
  function FromBytes(b: seq<int>): (s: string)
    requires forall i | 0 <= i < |b| :: 0 <= b[i] < 256
    ensures |s| == |b|
    ensures forall i | 0 <= i < |b| :: s[i] as int == b[i]
  {
    seq(|b|, i requires 0 <= i < |b| => b[i] as char)
  }

  // Numerals

  /** The value of a digit character in bases up to 36, or 36 if none. */
  function DigitValue(c: char): (d: nat)
    ensures d <= 36
  {
    if '0' <= c <= '9' then c as int - '0' as int
    else if 'a' <= c <= 'z' then c as int - 'a' as int + 10
    else if 'A' <= c <= 'Z' then c as int - 'A' as int + 10
    else 36
  }

  predicate AllDigits(s: string, base: nat) {
    forall i | 0 <= i < |s| :: DigitValue(s[i]) < base
  }

  /** The value of a digit string, most significant digit first. */
  function DigitsValue(s: string, base: nat): nat
    requires AllDigits(s, base)
    decreases |s|
  {
    if |s| == 0 then 0
    else DigitsValue(s[..|s| - 1], base) * base + DigitValue(s[|s| - 1])
  }

  /** The magnitude `strtol`/`strtoul` read with base 0 when the whole
      of `u` must be consumed: `0x` and hexadecimal digits, `0` and octal
      digits, or decimal digits. */
  function Magnitude(u: string): (m: Option<nat>)
  {
    if |u| >= 3 && u[0] == '0' && (u[1] == 'x' || u[1] == 'X') && AllDigits(u[2..], 16) then
      Some(DigitsValue(u[2..], 16))
    else if |u| >= 1 && u[0] == '0' then
      if AllDigits(u[1..], 8) then Some(DigitsValue(u[1..], 8)) else None
    else if |u| >= 1 && AllDigits(u, 10) then Some(DigitsValue(u, 10))
    else None
  }

  datatype Option<T> = None | Some(value: T)

  /** The index after the white space `strtol` skips. */
  function SkipSpace(s: string, i: nat): (k: nat)
    requires i <= |s|
    ensures i <= k <= |s|
    decreases |s| - i
  {
    if i < |s| && IsSpace(s[i]) then SkipSpace(s, i + 1) else i
  }

  /** The exact integer a whole numeral denotes: white space, an optional
      sign and a magnitude. */
  function IntegerValue(text: string): Option<int>
  {
    var t := text[SkipSpace(text, 0)..];
    if |t| > 0 && t[0] == '-' then
      match Magnitude(t[1..])
      case Some(m) => Some(-(m as int))
      case None => None
    else if |t| > 0 && t[0] == '+' then Magnitude(t[1..])
    else Magnitude(t)
  }

  /** `parse_number`: the empty text is not a number; a numeral within the
      range of `long` (taken as 32 bits) is read by `strtol`; one whose
      magnitude fits `unsigned long` by `strtoul`, which wraps negatives;
      anything else goes to the floating-point reader, which is the
      parameter `floatBits` here. */
  function ParseNumber(text: string, floatBits: string -> Option<i32>): (r: Option<i32>)
    ensures |text| == 0 ==> r == None
  {
    if |text| == 0 then None
    else
      match IntegerValue(text)
      case Some(v) =>
        if MinInt <= v <= MaxInt then Some(v)
        else if -Two32 < v < Two32 then Some(Wrap(v))
        else floatBits(text)
      case None => floatBits(text)
  }

  /** The decimal digits of `n`, most significant first (`%d`). */
  function Digits(n: nat): (s: string)
    ensures |s| > 0 && AllDigits(s, 10)
    ensures s[0] != '0' || n == 0
    decreases n
  {
    var d := [('0' as int + n % 10) as char];
    if n < 10 then d else Digits(n / 10) + d
  }

  /** `sprintf (s, "%d", n)`. */
  function Decimal(n: int): (s: string)
    ensures |s| > 0
  {
    if n < 0 then "-" + Digits(-n) else Digits(n)
  }

  /** Reading back decimal digits gives the number. */
  lemma {:induction false} DigitsRoundTrip(n: nat)
    ensures DigitsValue(Digits(n), 10) == n
    decreases n
  {
    var s := Digits(n);
    if n >= 10 {
      DigitsRoundTrip(n / 10);
      assert s[..|s| - 1] == Digits(n / 10);
    }
  }

  /** Decimal digits read back as a decimal magnitude: only zero starts
      with `0`, and it reads the same in octal. */
  lemma {:induction false} DigitsMagnitude(m: nat)
    ensures Magnitude(Digits(m)) == Some(m)
  {
    var ds := Digits(m);
    DigitsRoundTrip(m);
    if ds[0] == '0' {
      assert m == 0 && ds == "0";
      assert ds[1..] == "";
    }
  }

  /** A numeral with no leading white space or sign is read as a bare
      magnitude. */
  lemma PlainValue(t: string, m: nat)
    requires |t| > 0 && !IsSpace(t[0]) && t[0] != '-' && t[0] != '+'
    requires Magnitude(t) == Some(m)
    ensures IntegerValue(t) == Some(m as int)
  {
    assert SkipSpace(t, 0) == 0;
    assert t[0..] == t;
  }

  /** A minus sign before a magnitude negates it. */
  lemma NegatedValue(u: string, m: nat)
    requires Magnitude(u) == Some(m)
    ensures IntegerValue("-" + u) == Some(-(m as int))
  {
    var t := "-" + u;
    assert !IsSpace(t[0]);
    assert SkipSpace(t, 0) == 0;
    assert t[0..] == t && t[1..] == u;
  }

  /** The printed form of an integer denotes it. */
  lemma {:induction false} DecimalDenotes(n: int)
    ensures IntegerValue(Decimal(n)) == Some(n)
  {
    if n < 0 {
      DigitsMagnitude(-n);
      NegatedValue(Digits(-n), -n);
    } else {
      DigitsMagnitude(n);
      var c := Digits(n)[0];
      assert DigitValue(c) < 10;
      assert '0' <= c <= '9';
      assert !IsSpace(c);
      PlainValue(Digits(n), n);
    }
  }

  /** What `.` prints, `parse_number` reads back: the printed form of
      every `int` is a numeral that denotes it. */
  lemma {:induction false} PrintedNumbersParse(n: i32, floatBits: string -> Option<i32>)
    ensures ParseNumber(Decimal(n), floatBits) == Some(n)
  {
    DecimalDenotes(n);
  }
}
