/**
 * The contact form's field checks and its phone-number mask. All are pure
 * string functions: `trim`, `split(/\s+/)`, `replace(/\D/g, '')`, `slice`
 * and length comparisons.
 */
module Validators {
  import opened Seqs
  import opened Strings

  /**
   * What JavaScript's `\s` and `String.prototype.trim` count as white space:
   * the ASCII controls tab to carriage return, the space, and the Unicode
   * space separators, line and paragraph separators and the byte-order mark.
   */
  predicate IsSpace(c: char) {
    || ('\t' <= c <= '\r') || c == ' ' || c == '\U{00A0}' || c == '\U{1680}'
    || ('\U{2000}' <= c <= '\U{200A}') || c == '\U{2028}' || c == '\U{2029}'
    || c == '\U{202F}' || c == '\U{205F}' || c == '\U{3000}' || c == '\U{FEFF}'
  }

  predicate AllSpace(s: string) {
    forall i :: 0 <= i < |s| ==> IsSpace(s[i])
  }

  predicate NoSpace(s: string) {
    forall i :: 0 <= i < |s| ==> !IsSpace(s[i])
  }

  // ---------------------------------------------------------------- trim

  function TrimStart(s: string): (r: string)
    ensures |r| <= |s| && r == s[|s| - |r|..]
    ensures AllSpace(s[..|s| - |r|])
    ensures r == [] || !IsSpace(r[0])
  {
    if s == [] || !IsSpace(s[0]) then s
    else
      var r := TrimStart(s[1..]);
      assert s[..|s| - |r|] == [s[0]] + s[1..][..|s| - 1 - |r|];
      r
  }

  function TrimEnd(s: string): (r: string)
    ensures |r| <= |s| && r == s[..|r|]
    ensures AllSpace(s[|r|..])
    ensures r == [] || !IsSpace(r[|r| - 1])
  {
    if s == [] || !IsSpace(s[|s| - 1]) then s
    else
      var r := TrimEnd(s[..|s| - 1]);
      assert s[|r|..] == s[..|s| - 1][|r|..] + [s[|s| - 1]];
      r
  }

  /** `s.trim()`. */
  function Trim(s: string): string {
    TrimStart(TrimEnd(s))
  }

  /**
   * `Trim(s)` is the part of `s` left after removing white space at both
   * ends: a slice `s[i..j]` with only white space outside it, and neither
   * end of the slice is white space.
   */
  lemma TrimFacts(s: string)
    ensures exists i, j :: (0 <= i <= j <= |s| && Trim(s) == s[i..j]
      && AllSpace(s[..i]) && AllSpace(s[j..]))
    ensures Trim(s) == [] || (!IsSpace(Trim(s)[0]) && !IsSpace(Trim(s)[|Trim(s)| - 1]))
  {
    var e := TrimEnd(s);
    var r := TrimStart(e);
    InnerSlice(s, e, r);
    assert Trim(s) == s[|e| - |r|..|e|];
    TrimEnds(s);
  }

  lemma TrimEnds(s: string)
    ensures Trim(s) == [] || (!IsSpace(Trim(s)[0]) && !IsSpace(Trim(s)[|Trim(s)| - 1]))
  {
    var e := TrimEnd(s);
    var r := TrimStart(e);
    if r != [] {
      assert r[|r| - 1] == e[|e| - 1];
    }
  }

  /** A suffix `r` of a prefix `e` of `s` is the slice of `s` between them. */
  lemma InnerSlice(s: string, e: string, r: string)
    requires |e| <= |s| && e == s[..|e|] && AllSpace(s[|e|..])
    requires |r| <= |e| && r == e[|e| - |r|..] && AllSpace(e[..|e| - |r|])
    ensures r == s[|e| - |r|..|e|]
    ensures AllSpace(s[..|e| - |r|]) && AllSpace(s[|e|..])
  {
    var i := |e| - |r|;
    assert s[..i] == e[..i];
  }

  /** A string that begins and ends with something other than white space is its own trim. */
  lemma TrimmedFixed(s: string)
    requires s == [] || (!IsSpace(s[0]) && !IsSpace(s[|s| - 1]))
    ensures Trim(s) == s
  {
  }

  /** Trimming twice is trimming once. */
  lemma TrimIdempotent(s: string)
    ensures Trim(Trim(s)) == Trim(s)
  {
    TrimEnds(s);
    TrimmedFixed(Trim(s));
  }

  lemma {:induction false} TrimStartPadding(p: string, s: string)
    requires AllSpace(p)
    ensures TrimStart(p + s) == TrimStart(s)
  {
    if p != [] {
      assert (p + s)[0] == p[0] && (p + s)[1..] == p[1..] + s;
      TrimStartPadding(p[1..], s);
    } else {
      assert p + s == s;
    }
  }

  lemma {:induction false} TrimEndPadding(s: string, q: string)
    requires AllSpace(q)
    ensures TrimEnd(s + q) == TrimEnd(s)
  {
    if q != [] {
      var q' := q[..|q| - 1];
      assert (s + q)[|s + q| - 1] == q[|q| - 1] && (s + q)[..|s + q| - 1] == s + q';
      TrimEndPadding(s, q');
    } else {
      assert s + q == s;
    }
  }

  /** Trimming the end of `p + s` stops inside `s` unless `s` is all white space. */
  lemma {:induction false} TrimEndPrefix(p: string, s: string)
    ensures TrimEnd(p + s) == if TrimEnd(s) == [] then TrimEnd(p) else p + TrimEnd(s)
  {
    if s == [] {
      assert p + s == p;
    } else {
      var s' := s[..|s| - 1];
      assert (p + s)[|p + s| - 1] == s[|s| - 1] && (p + s)[..|p + s| - 1] == p + s';
      if IsSpace(s[|s| - 1]) {
        TrimEndPrefix(p, s');
      }
    }
  }

  lemma {:induction false} TrimEndAllSpace(p: string)
    requires AllSpace(p)
    ensures TrimEnd(p) == []
  {
    if p != [] {
      TrimEndAllSpace(p[..|p| - 1]);
    }
  }

  /** White space added around a string does not change its trim. */
  lemma TrimPadding(p: string, s: string, q: string)
    requires AllSpace(p) && AllSpace(q)
    ensures Trim(p + s + q) == Trim(s)
  {
    TrimEndPadding(p + s, q);
    TrimEndPrefix(p, s);
    var e := TrimEnd(s);
    if e == [] {
      TrimEndAllSpace(p);
    } else {
      TrimStartPadding(p, e);
    }
  }

  // ---------------------------------------------------------------- split(/\s+/)

  /** Index of the first white-space character of `s`, or `|s|`. */
  function FirstSpace(s: string): (k: nat)
    ensures k <= |s| && NoSpace(s[..k])
    ensures k < |s| ==> IsSpace(s[k])
  {
    if s == [] || IsSpace(s[0]) then 0
    else
      var k := 1 + FirstSpace(s[1..]);
      assert s[..k] == [s[0]] + s[1..][..k - 1];
      k
  }

  /** End of the run of white space that starts at `i`. */
  function SpaceRunEnd(s: string, i: nat): (j: nat)
    requires i <= |s|
    ensures i <= j <= |s|
    ensures AllSpace(s[i..j]) && (j < |s| ==> !IsSpace(s[j]))
    decreases |s| - i
  {
    if i == |s| || !IsSpace(s[i]) then i
    else
      var j := SpaceRunEnd(s, i + 1);
      assert s[i..j] == [s[i]] + s[i + 1..j];
      j
  }

  /**
   * `s.split(/\s+/)`: the pieces between maximal runs of white space,
   * including the empty piece before a leading run or after a trailing one.
   */
  function SplitWs(s: string): (parts: seq<string>)
    ensures |parts| >= 1
    ensures forall k :: 0 <= k < |parts| ==> NoSpace(parts[k])
    decreases |s|
  {
    var k := FirstSpace(s);
    if k == |s| then [s]
    else [s[..k]] + SplitWs(s[SpaceRunEnd(s, k)..])
  }

  /** The split yields two or more pieces exactly when there is white space to split at. */
  lemma SplitCount(s: string)
    ensures |SplitWs(s)| >= 2 <==> exists i :: 0 <= i < |s| && IsSpace(s[i])
  {
    var k := FirstSpace(s);
    if k == |s| {
      assert s[..k] == s;
    }
  }

  /**
   * `validateNomeCompleto`: a trimmed length of 3 or more UTF-16 code units
   * that splits into at least two words.
   */
  function ValidateNomeCompleto(nome: string): bool {
    var trimmed := Trim(nome);
    |SplitWs(trimmed)| >= 2 && Utf16Length(trimmed) >= 3
  }

  /**
   * A name passes exactly when its trimmed form has 3 code units or more
   * and white space strictly inside it, i.e. a first and a last word.
   */
  lemma NomeCompletoIff(nome: string)
    ensures ValidateNomeCompleto(nome) <==>
      var t := Trim(nome);
      Utf16Length(t) >= 3 && exists i :: 0 < i < |t| - 1 && IsSpace(t[i])
  {
    TrimEnds(nome);
    NameShape(Trim(nome));
  }

  lemma NameShape(t: string)
    requires t == [] || (!IsSpace(t[0]) && !IsSpace(t[|t| - 1]))
    ensures |SplitWs(t)| >= 2 <==> exists i :: 0 < i < |t| - 1 && IsSpace(t[i])
  {
    SplitCount(t);
    InteriorSpace(t);
  }

  /** In a string that neither begins nor ends with white space, any white space is strictly inside. */
  lemma InteriorSpace(t: string)
    requires t == [] || (!IsSpace(t[0]) && !IsSpace(t[|t| - 1]))
    ensures (exists i :: 0 <= i < |t| && IsSpace(t[i])) <==> (exists i :: 0 < i < |t| - 1 && IsSpace(t[i]))
  {
    if exists i :: 0 <= i < |t| && IsSpace(t[i]) {
      var i :| 0 <= i < |t| && IsSpace(t[i]);
      assert 0 < i < |t| - 1;
    }
  }

  /** White space around the name does not change the verdict. */
  lemma NomeCompletoPadding(p: string, nome: string, q: string)
    requires AllSpace(p) && AllSpace(q)
    ensures ValidateNomeCompleto(p + nome + q) == ValidateNomeCompleto(nome)
  {
    TrimPadding(p, nome, q);
  }

  // ---------------------------------------------------------------- e-mail

  /** A run `[^\s@]+`: non-empty, without white space or `@`. */
  predicate Atom(s: string) {
    |s| >= 1 && forall i :: 0 <= i < |s| ==> !IsSpace(s[i]) && s[i] != '@'
  }

  /**
   * The language of `/^[^\s@]+@[^\s@]+\.[^\s@]+$/`: an atom, `@`, an atom,
   * `.`, an atom, with `@` at `i` and the chosen `.` at `j`.
   */
  ghost predicate EmailRegex(s: string) {
    exists i, j :: (0 < i && i + 1 < j && j + 1 < |s| && s[i] == '@' && s[j] == '.'
      && Atom(s[..i]) && Atom(s[i + 1..j]) && Atom(s[j + 1..]))
  }

  /** Index of the first `c` in `s`, or `|s|`. */
  function IndexOf(s: string, c: char): (k: nat)
    ensures k <= |s| && c !in s[..k]
    ensures k < |s| ==> s[k] == c
  {
    if s == [] || s[0] == c then 0
    else
      var k := 1 + IndexOf(s[1..], c);
      assert s[..k] == [s[0]] + s[1..][..k - 1];
      k
  }

  /**
   * The pattern decided in one pass: no white space, exactly one `@`, not
   * first, and after it a `.` that is neither the first nor the last
   * character of the domain.
   */
  function MatchesEmailPattern(s: string): bool {
    var at := IndexOf(s, '@');
    && NoSpace(s)
    && 1 <= at < |s|
    && '@' !in s[at + 1..]
    && exists k :: at + 2 <= k < |s| - 1 && s[k] == '.'
  }

  /** `validateEmail`: the pattern matches and the address has at most 100 UTF-16 code units. */
  function ValidateEmail(email: string): bool {
    MatchesEmailPattern(email) && Utf16Length(email) <= 100
  }

  /** The one-pass decision accepts exactly the language of the regular expression. */
  lemma EmailPatternIsRegex(s: string)
    ensures MatchesEmailPattern(s) <==> EmailRegex(s)
  {
    if MatchesEmailPattern(s) {
      var at := IndexOf(s, '@');
      var k :| at + 2 <= k < |s| - 1 && s[k] == '.';
      forall t | 0 <= t < at ensures s[t] != '@' {
        assert s[t] == s[..at][t];
      }
      forall t | at < t < |s| ensures s[t] != '@' {
        assert s[t] == s[at + 1..][t - at - 1];
      }
      assert Atom(s[..at]) && Atom(s[at + 1..k]) && Atom(s[k + 1..]);
      assert s[at] == '@';
    }
    if EmailRegex(s) {
      var i, j :| 0 < i && i + 1 < j && j + 1 < |s| && s[i] == '@' && s[j] == '.'
        && Atom(s[..i]) && Atom(s[i + 1..j]) && Atom(s[j + 1..]);
      EmailRegexParts(s, i, j);
    }
  }

  /** `validateEmail` accepts exactly the addresses of at most 100 UTF-16 code units in the regular language. */
  lemma ValidateEmailIff(email: string)
    ensures ValidateEmail(email) <==> EmailRegex(email) && Utf16Length(email) <= 100
  {
    EmailPatternIsRegex(email);
  }

  lemma EmailRegexParts(s: string, i: nat, j: nat)
    requires 0 < i && i + 1 < j && j + 1 < |s| && s[i] == '@' && s[j] == '.'
    requires Atom(s[..i]) && Atom(s[i + 1..j]) && Atom(s[j + 1..])
    ensures MatchesEmailPattern(s)
  {
    assert forall k :: 0 <= k < i ==> s[k] == s[..i][k];
    assert IndexOf(s, '@') == i;
    forall k | 0 <= k < |s| ensures !IsSpace(s[k]) && (k != i ==> s[k] != '@') {
      if k < i {
        assert s[k] == s[..i][k];
      } else if i < k < j {
        assert s[k] == s[i + 1..j][k - i - 1];
      } else if j < k {
        assert s[k] == s[j + 1..][k - j - 1];
      }
    }
    assert '@' !in s[i + 1..];
  }

  // ---------------------------------------------------------------- telephone

  /** `value.replace(/\D/g, '')`: the ASCII digits of `value`, in order. */
  function Digits(value: string): (d: string)
    ensures AllDigits(d)
  {
    var d := Filter(value, IsDigit);
    FilterCounts(value, IsDigit);
    assert forall i :: 0 <= i < |d| ==> d[i] in d;
    d
  }

  /** `validateTelefone`: 10 or 11 digits, whatever else the text holds. */
  function ValidateTelefone(telefone: string): bool {
    var cleaned := Digits(telefone);
    10 <= |cleaned| <= 11
  }

  /** The mask laid over a string of digits. */
  function Mask(cleaned: string): string {
    if |cleaned| <= 2 then cleaned
    else if |cleaned| <= 6 then "(" + cleaned[..2] + ") " + cleaned[2..]
    else if |cleaned| <= 10 then "(" + cleaned[..2] + ") " + cleaned[2..6] + "-" + cleaned[6..]
    else "(" + cleaned[..2] + ") " + cleaned[2..7] + "-" + cleaned[7..11]
  }

  /** `formatTelefone`: the mask laid over the digits of the input. */
  function FormatTelefone(value: string): string {
    Mask(Digits(value))
  }

  lemma DigitsOfDigits(s: string)
    requires AllDigits(s)
    ensures Digits(s) == s
  {
    FilterKeepsAll(s, IsDigit);
  }

  lemma DigitsAppend(a: string, b: string)
    ensures Digits(a + b) == Digits(a) + Digits(b)
  {
    FilterAppend(a, b, IsDigit);
  }

  lemma PunctuationHasNoDigits()
    ensures Digits("(") == [] && Digits(") ") == [] && Digits("-") == []
  {
    assert "(" == ['('] && ") " == [')', ' '] && "-" == ['-'];
  }

  /** `(DD) rest` carries the digits `DD` and `rest`. */
  lemma TwoPartDigits(area: string, rest: string)
    requires AllDigits(area) && AllDigits(rest)
    ensures Digits("(" + area + ") " + rest) == area + rest
  {
    PunctuationHasNoDigits();
    DigitsOfDigits(area);
    DigitsOfDigits(rest);
    DigitsAppend("(" + area + ") ", rest);
    DigitsAppend("(" + area, ") ");
    DigitsAppend("(", area);
  }

  /** `(DD) XXXX-rest` carries the digits `DD`, `XXXX` and `rest`. */
  lemma ThreePartDigits(area: string, a: string, b: string)
    requires AllDigits(area) && AllDigits(a) && AllDigits(b)
    ensures Digits("(" + area + ") " + a + "-" + b) == area + a + b
  {
    PunctuationHasNoDigits();
    TwoPartDigits(area, a);
    DigitsOfDigits(b);
    DigitsAppend("(" + area + ") " + a + "-", b);
    DigitsAppend("(" + area + ") " + a, "-");
  }

  /** The mask adds punctuation only: its digits are the digits it was given, capped at 11. */
  lemma MaskDigits(c: string)
    requires AllDigits(c)
    ensures Digits(Mask(c)) == c[..if |c| <= 11 then |c| else 11]
  {
    var n := if |c| <= 11 then |c| else 11;
    if |c| <= 2 {
      DigitsOfDigits(c);
      assert c[..n] == c;
    } else if |c| <= 6 {
      TwoPartDigits(c[..2], c[2..]);
      assert c[..n] == c[..2] + c[2..];
    } else {
      var hi := if |c| <= 10 then 6 else 7;
      assert Mask(c) == "(" + c[..2] + ") " + c[2..hi] + "-" + c[hi..n];
      ThreePartDigits(c[..2], c[2..hi], c[hi..n]);
      assert c[..n] == c[..2] + c[2..hi] + c[hi..n];
    }
  }

  /**
   * The digits of the formatted number are the first `min(11, k)` digits
   * of the input, in order, where `k` is how many digits the input has.
   */
  lemma FormatKeepsDigits(value: string)
    ensures var k := |Digits(value)|;
      Digits(FormatTelefone(value)) == Digits(value)[..if k <= 11 then k else 11]
  {
    MaskDigits(Digits(value));
  }

  /**
   * The length of the formatted number: the bare digits up to 2, then 3
   * characters of punctuation `(`, `)` and space, one more (`-`) from 7
   * digits on, and 15 characters from 11 digits on.
   */
  lemma FormatLength(value: string)
    ensures var k := |Digits(value)|;
      |FormatTelefone(value)| ==
        if k <= 2 then k else if k <= 6 then k + 3 else if k <= 10 then k + 4 else 15
  {
  }

  /** Formatting formatted text changes nothing. */
  lemma FormatIdempotent(value: string)
    ensures FormatTelefone(FormatTelefone(value)) == FormatTelefone(value)
  {
    var c := Digits(value);
    FormatKeepsDigits(value);
    var n := if |c| <= 11 then |c| else 11;
    assert Digits(FormatTelefone(value)) == c[..n];
    if |c| > 11 {
      assert c[..n][..2] == c[..2] && c[..n][2..7] == c[2..7] && c[..n][7..11] == c[7..11];
    } else {
      assert c[..n] == c;
    }
  }

  /** A formatted number passes `validateTelefone` exactly when the input had at least 10 digits. */
  lemma ValidateFormatted(value: string)
    ensures ValidateTelefone(FormatTelefone(value)) <==> |Digits(value)| >= 10
  {
    FormatKeepsDigits(value);
  }

  // ---------------------------------------------------------------- message

  /** `validateMensagem`: between 10 and 1000 UTF-16 code units once trimmed. */
  function ValidateMensagem(mensagem: string): bool {
    var trimmed := Trim(mensagem);
    10 <= Utf16Length(trimmed) <= 1000
  }

  /**
   * The verdict depends only on the text between the first and the last
   * character that is not white space: padding neither helps nor hurts.
   */
  lemma MensagemPadding(p: string, mensagem: string, q: string)
    requires AllSpace(p) && AllSpace(q)
    ensures ValidateMensagem(p + mensagem + q) == ValidateMensagem(mensagem)
  {
    TrimPadding(p, mensagem, q);
  }
}
