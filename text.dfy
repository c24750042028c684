/** The pieces of Rust's `str` API the parsers rely on, as functions on
    `seq<char>`: `char::is_whitespace`, `trim`, `split_whitespace`, `lines`,
    `split_once`, `split`, `strip_prefix`, ASCII lower-casing and the
    unsigned-integer `parse`/`to_string` pair. */
module Text {
  import opened Wrappers

  /** Unicode White_Space: what `char::is_whitespace` and the regex class `\s` accept. */
  predicate IsWhitespace(c: char) {
    || ('\t' <= c <= '\r')
    || c == ' '
    || c == '\U{85}'
    || c == '\U{A0}'
    || c == '\U{1680}'
    || ('\U{2000}' <= c <= '\U{200A}')
    || c == '\U{2028}'
    || c == '\U{2029}'
    || c == '\U{202F}'
    || c == '\U{205F}'
    || c == '\U{3000}'
  }

  /** A non-empty run of non-whitespace characters: one item of `split_whitespace`. */
  predicate IsToken(w: string) {
    w != [] && forall i :: 0 <= i < |w| ==> !IsWhitespace(w[i])
  }

  predicate NoWhitespace(s: string) {
    forall i :: 0 <= i < |s| ==> !IsWhitespace(s[i])
  }

  // ---------------------------------------------------------------- trim

  /** How many whitespace characters `s` starts with. */
  function LeadingWhitespace(s: string): (n: nat)
    ensures n <= |s|
    ensures forall i :: 0 <= i < n ==> IsWhitespace(s[i])
    ensures n < |s| ==> !IsWhitespace(s[n])
  {
    if s != [] && IsWhitespace(s[0]) then 1 + LeadingWhitespace(s[1..]) else 0
  }

  /** How many whitespace characters `s` ends with. */
  function TrailingWhitespace(s: string): (n: nat)
    ensures n <= |s|
    ensures forall i :: |s| - n <= i < |s| ==> IsWhitespace(s[i])
    ensures n < |s| ==> !IsWhitespace(s[|s| - n - 1])
  {
    if s != [] && IsWhitespace(s[|s| - 1]) then 1 + TrailingWhitespace(s[..|s| - 1]) else 0
  }

  /** A run of characters satisfying `p` from the start of `s`, ended by the
      end of `s` or by a character that does not, has only one length. */
  lemma PrefixRunUnique(s: string, p: char -> bool, m: nat, n: nat)
    requires m <= |s| && forall i :: 0 <= i < m ==> p(s[i])
    requires m < |s| ==> !p(s[m])
    requires n <= |s| && forall i :: 0 <= i < n ==> p(s[i])
    requires n < |s| ==> !p(s[n])
    ensures m == n
  {
  }

  /** The same for a run at the end of `s`. */
  lemma SuffixRunUnique(s: string, p: char -> bool, m: nat, n: nat)
    requires m <= |s| && forall i :: |s| - m <= i < |s| ==> p(s[i])
    requires m < |s| ==> !p(s[|s| - m - 1])
    requires n <= |s| && forall i :: |s| - n <= i < |s| ==> p(s[i])
    requires n < |s| ==> !p(s[|s| - n - 1])
    ensures m == n
  {
  }

  /** The leading whitespace is the run before the first other character. */
  lemma LeadingWhitespaceIs(s: string, n: nat)
    requires n <= |s|
    requires forall i :: 0 <= i < n ==> IsWhitespace(s[i])
    requires n < |s| ==> !IsWhitespace(s[n])
    ensures LeadingWhitespace(s) == n
  {
    PrefixRunUnique(s, IsWhitespace, LeadingWhitespace(s), n);
  }

  /** The trailing whitespace is the run after the last other character. */
  lemma TrailingWhitespaceIs(s: string, n: nat)
    requires n <= |s|
    requires forall i :: |s| - n <= i < |s| ==> IsWhitespace(s[i])
    requires n < |s| ==> !IsWhitespace(s[|s| - n - 1])
    ensures TrailingWhitespace(s) == n
  {
    SuffixRunUnique(s, IsWhitespace, TrailingWhitespace(s), n);
  }

  /** `trim_start`: drops the leading whitespace, nothing else. */
  function TrimStart(s: string): (r: string)
    ensures r != [] ==> !IsWhitespace(r[0])
  {
    s[LeadingWhitespace(s)..]
  }

  /** `trim_end`: drops the trailing whitespace, nothing else. */
  function TrimEnd(s: string): (r: string)
    ensures r != [] ==> !IsWhitespace(r[|r| - 1])
  {
    s[..|s| - TrailingWhitespace(s)]
  }

  /** `trim`: a contiguous piece of `s` that neither starts nor ends with whitespace. */
  function Trim(s: string): (r: string)
    ensures |r| <= |s|
    ensures r != [] ==> !IsWhitespace(r[0]) && !IsWhitespace(r[|r| - 1])
  {
    var t := TrimStart(s);
    var r := TrimEnd(t);
    assert r != [] ==> r[0] == t[0];
    r
  }

  /** `trim` leaves nothing exactly when every character is whitespace. */
  lemma TrimEmpty(s: string)
    ensures Trim(s) == [] <==> forall i :: 0 <= i < |s| ==> IsWhitespace(s[i])
  {
    var n := LeadingWhitespace(s);
    var t := TrimStart(s);
    if n < |s| {
      assert t[0] == s[n];
      assert TrailingWhitespace(t) < |t|;
    }
  }

  lemma TrimOfNoWhitespace(s: string)
    requires NoWhitespace(s)
    ensures Trim(s) == s
  {
    LeadingWhitespaceIs(s, 0);
    TrailingWhitespaceIs(s, 0);
  }

  lemma TrimStartSkipsWhitespace(ws: string, s: string)
    requires forall i :: 0 <= i < |ws| ==> IsWhitespace(ws[i])
    ensures TrimStart(ws + s) == TrimStart(s)
  {
    var n := LeadingWhitespace(s);
    var t := ws + s;
    forall i | 0 <= i < |ws| + n ensures IsWhitespace(t[i]) {
      if i >= |ws| {
        assert t[i] == s[i - |ws|];
      }
    }
    assert |ws| + n < |t| ==> t[|ws| + n] == s[n];
    LeadingWhitespaceIs(t, |ws| + n);
    assert t[|ws| + n..] == s[n..];
  }

  lemma TrimEndSkipsWhitespace(s: string, ws: string)
    requires forall i :: 0 <= i < |ws| ==> IsWhitespace(ws[i])
    ensures TrimEnd(s + ws) == TrimEnd(s)
  {
    var n := TrailingWhitespace(s);
    var t := s + ws;
    forall i | |t| - (|ws| + n) <= i < |t| ensures IsWhitespace(t[i]) {
      if i < |s| {
        assert t[i] == s[i];
      }
    }
    assert |ws| + n < |t| ==> t[|t| - (|ws| + n) - 1] == s[|s| - n - 1];
    TrailingWhitespaceIs(t, |ws| + n);
    assert t[..|t| - (|ws| + n)] == s[..|s| - n];
  }

  /** Whitespace around a whitespace-free word is what `trim` removes. */
  lemma TrimAround(ws1: string, w: string, ws2: string)
    requires forall i :: 0 <= i < |ws1| ==> IsWhitespace(ws1[i])
    requires forall i :: 0 <= i < |ws2| ==> IsWhitespace(ws2[i])
    requires NoWhitespace(w)
    ensures Trim(ws1 + w + ws2) == w
  {
    assert ws1 + w + ws2 == ws1 + (w + ws2);
    TrimStartSkipsWhitespace(ws1, w + ws2);
    if w != [] {
      assert TrimStart(w + ws2) == w + ws2;
    } else {
      TrimStartSkipsWhitespace(ws2, []);
      assert ws2 + [] == ws2;
    }
    TrimEndSkipsWhitespace(w, ws2);
    if w != [] {
      assert TrimEnd(w) == w;
    }
  }

  /** `trim` keeps one contiguous piece of its input. */
  lemma TrimSlice(s: string) returns (i: nat, j: nat)
    ensures i <= j <= |s| && Trim(s) == s[i..j]
  {
    var n := LeadingWhitespace(s);
    var t := s[n..];
    var m := TrailingWhitespace(t);
    i, j := n, |s| - m;
    assert Trim(s) == t[..|t| - m];
  }

  /** No whitespace at either end: what `trim` leaves as it is. */
  predicate Trimmed(s: string) {
    s == [] || (!IsWhitespace(s[0]) && !IsWhitespace(s[|s| - 1]))
  }

  /** Whitespace in front of a trimmed string is all that `trim` removes. */
  lemma TrimAfterWhitespace(ws: string, s: string)
    requires forall i :: 0 <= i < |ws| ==> IsWhitespace(ws[i])
    requires Trimmed(s)
    ensures Trim(ws + s) == s
  {
    TrimStartSkipsWhitespace(ws, s);
    LeadingWhitespaceIs(s, 0);
    TrailingWhitespaceIs(s, 0);
  }

  /** Whitespace on both sides of a trimmed string is all that `trim` removes. */
  lemma TrimmedAround(ws1: string, s: string, ws2: string)
    requires forall i :: 0 <= i < |ws1| ==> IsWhitespace(ws1[i])
    requires forall i :: 0 <= i < |ws2| ==> IsWhitespace(ws2[i])
    requires Trimmed(s)
    ensures Trim(ws1 + s + ws2) == s
  {
    assert ws1 + s + ws2 == ws1 + (s + ws2);
    TrimStartSkipsWhitespace(ws1, s + ws2);
    if s != [] {
      LeadingWhitespaceIs(s + ws2, 0);
      TrailingWhitespaceIs(s, 0);
    } else {
      TrimStartSkipsWhitespace(ws2, []);
      assert ws2 + [] == ws2;
    }
    TrimEndSkipsWhitespace(s, ws2);
  }

  // ------------------------------------------------------ split_whitespace

  /** Length of the leading run of non-whitespace characters. */
  function WordLength(s: string): (n: nat)
    ensures n <= |s|
    ensures forall i :: 0 <= i < n ==> !IsWhitespace(s[i])
    ensures n < |s| ==> IsWhitespace(s[n])
  {
    if s == [] || IsWhitespace(s[0]) then 0 else 1 + WordLength(s[1..])
  }

  /** `split_whitespace`: the maximal non-whitespace runs, left to right. */
  function Tokens(s: string): (ts: seq<string>)
    ensures forall i :: 0 <= i < |ts| ==> IsToken(ts[i])
    decreases |s|
  {
    var t := TrimStart(s);
    if t == [] then []
    else
      var n := WordLength(t);
      [t[..n]] + Tokens(t[n..])
  }

  lemma TokensOfWhitespace(ws: string)
    requires forall i :: 0 <= i < |ws| ==> IsWhitespace(ws[i])
    ensures Tokens(ws) == []
  {
    assert TrimStart(ws) == [] by {
      TrimStartSkipsWhitespace(ws, []);
      assert ws + [] == ws;
    }
  }

  /** Leading whitespace does not change the tokens. */
  lemma TokensSkipWhitespace(ws: string, s: string)
    requires forall i :: 0 <= i < |ws| ==> IsWhitespace(ws[i])
    ensures Tokens(ws + s) == Tokens(s)
  {
    TrimStartSkipsWhitespace(ws, s);
  }

  /** The word length is the index of the first whitespace character. */
  lemma WordLengthIs(s: string, n: nat)
    requires n <= |s|
    requires forall j :: 0 <= j < n ==> !IsWhitespace(s[j])
    requires n < |s| ==> IsWhitespace(s[n])
    ensures WordLength(s) == n
  {
    PrefixRunUnique(s, c => !IsWhitespace(c), WordLength(s), n);
  }

  lemma WordLengthOfToken(w: string, rest: string)
    requires IsToken(w)
    requires rest == [] || IsWhitespace(rest[0])
    ensures WordLength(w + rest) == |w|
  {
    var s := w + rest;
    forall j | 0 <= j < |w| ensures !IsWhitespace(s[j]) {
      assert s[j] == w[j];
    }
    assert rest != [] ==> s[|w|] == rest[0];
    WordLengthIs(s, |w|);
  }

  /** A word followed by a separator (or by nothing) is the first token. */
  lemma TokensCons(w: string, rest: string)
    requires IsToken(w)
    requires rest == [] || IsWhitespace(rest[0])
    ensures Tokens(w + rest) == [w] + Tokens(rest)
  {
    var s := w + rest;
    assert TrimStart(s) == s by {
      assert s[0] == w[0];
    }
    WordLengthOfToken(w, rest);
    assert s[..|w|] == w && s[|w|..] == rest;
  }

  /** A word and one space in front of the rest: the word, then the rest's tokens. */
  lemma TokensWordSpace(w: string, rest: string)
    requires IsToken(w)
    ensures Tokens(w + " " + rest) == [w] + Tokens(rest)
  {
    var spaced := " " + rest;
    assert w + " " + rest == w + spaced;
    assert spaced[0] == ' ';
    TokensCons(w, spaced);
    TokensSkipWhitespace(" ", rest);
  }

  /** A word on its own is its only token. */
  lemma TokenAlone(w: string)
    requires IsToken(w)
    ensures Tokens(w) == [w]
  {
    TokensCons(w, []);
    assert w + [] == w;
    TokensOfWhitespace([]);
  }

  /** Two words joined by a single space split back into those words. */
  lemma TwoWords(a: string, b: string)
    requires IsToken(a) && IsToken(b)
    ensures Tokens(a + " " + b) == [a, b]
  {
    TokensWordSpace(a, b);
    TokenAlone(b);
  }

  /** Concatenation regrouped: a step the solver does not take on its own
      inside large terms. */
  lemma AppendAssoc<T>(a: seq<T>, b: seq<T>, c: seq<T>)
    ensures (a + b) + c == a + (b + c)
  {
  }

  // ------------------------------------------------------------- lines

  /** Index of the first `c` in `s`, or `|s|` when there is none. */
  function IndexOf(s: string, c: char): (i: nat)
    ensures i <= |s|
    ensures i < |s| ==> s[i] == c
    ensures forall j :: 0 <= j < i ==> s[j] != c
  {
    if s == [] then 0 else if s[0] == c then 0 else 1 + IndexOf(s[1..], c)
  }

  lemma {:induction false} IndexOfAppend(a: string, b: string, c: char)
    requires IndexOf(a, c) < |a|
    ensures IndexOf(a + b, c) == IndexOf(a, c)
  {
    if a[0] != c {
      assert (a + b)[1..] == a[1..] + b;
      IndexOfAppend(a[1..], b, c);
    }
  }

  function StripCR(l: string): string {
    if l != [] && l[|l| - 1] == '\r' then l[..|l| - 1] else l
  }

  /** `str::lines`: split after each '\n', drop the '\n' and a '\r' just before it;
      a final line ending adds no empty line. */
  function Lines(s: string): (ls: seq<string>)
    ensures forall i :: 0 <= i < |ls| ==> '\n' !in ls[i]
    ensures s == [] <==> ls == []
    decreases |s|
  {
    if s == [] then []
    else
      var i := IndexOf(s, '\n');
      if i == |s| then [s] else [StripCR(s[..i])] + Lines(s[i + 1..])
  }

  /** A CRLF-terminated line is one line of `lines`, with its ending removed. */
  lemma LinesCRLF(l: string, rest: string)
    requires '\n' !in l
    ensures Lines(l + "\r\n" + rest) == [l] + Lines(rest)
  {
    var s := l + "\r\n" + rest;
    assert s[|l|] == '\r' && s[|l| + 1] == '\n';
    var i := IndexOf(s, '\n');
    assert forall j :: 0 <= j < |l| ==> s[j] == l[j];
    assert i == |l| + 1;
    assert s[..i] == l + "\r";
    assert s[i + 1..] == rest;
  }

  /** Each line followed by CRLF: how the requests and replies are laid out. */
  function CrlfLines(ls: seq<string>): string {
    if ls == [] then [] else ls[0] + "\r\n" + CrlfLines(ls[1..])
  }

  /** `lines` splits CRLF-terminated lines back into the lines written. */
  lemma {:induction false} LinesOfCrlfLines(ls: seq<string>)
    requires forall i :: 0 <= i < |ls| ==> '\n' !in ls[i]
    ensures Lines(CrlfLines(ls)) == ls
  {
    if ls != [] {
      LinesCRLF(ls[0], CrlfLines(ls[1..]));
      LinesOfCrlfLines(ls[1..]);
    }
  }

  /** A line without a terminator is the last line. */
  lemma LinesLast(l: string)
    requires l != [] && '\n' !in l
    ensures Lines(l) == [l]
  {
  }

  /** The first line of `a + b` ends inside `a` when `a` holds a '\n'. */
  lemma LinesFirst(a: string, b: string)
    requires IndexOf(a, '\n') < |a|
    ensures Lines(a + b) == [StripCR(a[..IndexOf(a, '\n')])] + Lines(a[IndexOf(a, '\n') + 1..] + b)
  {
    var s := a + b;
    var i := IndexOf(a, '\n');
    IndexOfAppend(a, b, '\n');
    assert s[..i] == a[..i];
    assert s[i + 1..] == a[i + 1..] + b;
  }

  /** The first line of a text that holds a '\n', and the lines after it. */
  lemma LinesHead(a: string)
    requires IndexOf(a, '\n') < |a|
    ensures Lines(a) == [StripCR(a[..IndexOf(a, '\n')])] + Lines(a[IndexOf(a, '\n') + 1..])
  {
  }

  /** A text ending in '\n' still ends in '\n' after its first line. */
  lemma RestEnded(a: string, i: nat)
    requires i < |a| && a[|a| - 1] == '\n'
    ensures a[i + 1..] == [] || a[i + 1..][|a[i + 1..]| - 1] == '\n'
  {
  }

  /** Splitting after a line ending commutes with concatenation. */
  lemma {:induction false} LinesAppend(a: string, b: string)
    requires a == [] || a[|a| - 1] == '\n'
    ensures Lines(a + b) == Lines(a) + Lines(b)
    decreases |a|
  {
    if a != [] {
      var i := IndexOf(a, '\n');
      var x := StripCR(a[..i]);
      LinesFirst(a, b);
      LinesHead(a);
      RestEnded(a, i);
      LinesAppend(a[i + 1..], b);
      AppendAssoc([x], Lines(a[i + 1..]), Lines(b));
    } else {
      assert a + b == b;
    }
  }

  // ------------------------------------------------ split_once, split, prefix

  /** `split_once(c)`: the text before and after the first `c`. */
  function SplitOnce(s: string, c: char): (r: Option<(string, string)>)
    ensures r.None? <==> c !in s
    ensures r.Some? ==> s == r.value.0 + [c] + r.value.1 && c !in r.value.0
  {
    var i := IndexOf(s, c);
    if i == |s| then None
    else
      assert s == s[..i] + [c] + s[i + 1..];
      Some((s[..i], s[i + 1..]))
  }

  /** Splitting at the first `c` of `a + [c] + b`, when `a` has none, gives `a` and `b`. */
  lemma SplitOnceAt(a: string, c: char, b: string)
    requires c !in a
    ensures SplitOnce(a + [c] + b, c) == Some((a, b))
  {
    var s := a + [c] + b;
    assert s[|a|] == c;
    assert forall j :: 0 <= j < |a| ==> s[j] == a[j];
    assert IndexOf(s, c) == |a|;
    assert s[..|a|] == a && s[|a| + 1..] == b;
  }

  /** `split(c)`: every piece between occurrences of `c`, empty pieces included. */
  function Split(s: string, c: char): (ps: seq<string>)
    ensures |ps| >= 1
    ensures forall i :: 0 <= i < |ps| ==> c !in ps[i]
    decreases |s|
  {
    var i := IndexOf(s, c);
    if i == |s| then [s] else [s[..i]] + Split(s[i + 1..], c)
  }

  lemma SplitCons(p: string, c: char, rest: string)
    requires c !in p
    ensures Split(p + [c] + rest, c) == [p] + Split(rest, c)
  {
    var s := p + [c] + rest;
    var i := IndexOf(s, c);
    assert forall j :: 0 <= j < |p| ==> s[j] == p[j];
    assert s[|p|] == c;
    assert i == |p|;
    assert s[..i] == p && s[i + 1..] == rest;
  }

  lemma SplitLast(p: string, c: char)
    requires c !in p
    ensures Split(p, c) == [p]
  {
  }

  predicate StartsWith(s: string, prefix: string) {
    |prefix| <= |s| && s[..|prefix|] == prefix
  }

  /** `strip_prefix`. */
  function StripPrefix(s: string, prefix: string): (r: Option<string>)
    ensures r.Some? <==> StartsWith(s, prefix)
    ensures r.Some? ==> s == prefix + r.value
  {
    if StartsWith(s, prefix) then
      assert s == prefix + s[|prefix|..];
      Some(s[|prefix|..])
    else None
  }

  /** Joins the pieces with `sep` between consecutive ones (`[..].join(sep)`). */
  function Join(ps: seq<string>, sep: string): string {
    if ps == [] then [] else if |ps| == 1 then ps[0] else ps[0] + sep + Join(ps[1..], sep)
  }

  // ------------------------------------------------------------- case

  function LowerChar(c: char): (d: char)
    ensures ('A' <= c <= 'Z') ==> d as int == c as int + 32
    ensures !('A' <= c <= 'Z') ==> d == c
  {
    if 'A' <= c <= 'Z' then (c as int + 32) as char else c
  }

  /** `to_lowercase`, restricted to the ASCII letters. */
  function AsciiLower(s: string): (r: string)
    ensures |r| == |s|
    ensures forall i :: 0 <= i < |s| ==> r[i] == LowerChar(s[i])
  {
    seq(|s|, i requires 0 <= i < |s| => LowerChar(s[i]))
  }

  // ----------------------------------------------------- unsigned numbers

  const U16_LIMIT: nat := 0x1_0000
  const U32_LIMIT: nat := 0x1_0000_0000
  const USIZE_LIMIT: nat := 0x1_0000_0000_0000_0000

  predicate IsDigit(c: char) { '0' <= c <= '9' }

  predicate AllDigits(s: string) {
    forall i :: 0 <= i < |s| ==> IsDigit(s[i])
  }

  function DigitChar(d: nat): (c: char)
    requires d < 10
    ensures IsDigit(c) && c as int - '0' as int == d
  {
    ('0' as int + d) as char
  }

  /** The value of a string of ASCII digits, most significant first. */
  function DecimalValue(s: string): nat
    requires AllDigits(s)
  {
    if s == [] then 0 else DecimalValue(s[..|s| - 1]) * 10 + (s[|s| - 1] as int - '0' as int)
  }

  /** `n.to_string()` for an unsigned `n`: shortest decimal form, no sign. */
  function Decimal(n: nat): (s: string)
    ensures s != [] && AllDigits(s)
    ensures s[0] == '0' ==> n == 0
  {
    if n < 10 then [DigitChar(n)] else Decimal(n / 10) + [DigitChar(n % 10)]
  }

  lemma {:induction false} DecimalValueOfDecimal(n: nat)
    ensures DecimalValue(Decimal(n)) == n
  {
    if n >= 10 {
      var s := Decimal(n);
      assert s[..|s| - 1] == Decimal(n / 10);
      DecimalValueOfDecimal(n / 10);
    }
  }

  lemma DecimalHasNoWhitespace(n: nat)
    ensures NoWhitespace(Decimal(n)) && IsToken(Decimal(n))
  {
    var s := Decimal(n);
    forall i | 0 <= i < |s| ensures !IsWhitespace(s[i]) {
      assert IsDigit(s[i]);
    }
  }

  /** Rust's `parse::<uN>()`: an optional '+', then at least one ASCII digit,
      and a value below `limit` (2^N); anything else is an error. */
  function ParseUnsigned(s: string, limit: nat): (r: Option<nat>)
    ensures r.Some? ==> r.value < limit
    ensures s == [] ==> r.None?
    ensures r.Some? ==> s != [] && (IsDigit(s[0]) || s[0] == '+')
  {
    var digits := if s != [] && s[0] == '+' then s[1..] else s;
    if digits != [] && AllDigits(digits) && DecimalValue(digits) < limit then
      Some(DecimalValue(digits))
    else None
  }

  /** What `to_string` writes, `parse` reads back, for every value in range. */
  lemma ParseDecimal(n: nat, limit: nat)
    requires n < limit
    ensures ParseUnsigned(Decimal(n), limit) == Some(n)
  {
    DecimalValueOfDecimal(n);
  }

  function Pow10(w: nat): (p: nat)
    ensures p >= 1
  {
    if w == 0 then 1 else 10 * Pow10(w - 1)
  }

  /** `n` written with exactly `width` digits, zero-padded, keeping the low digits. */
  function PaddedDecimal(n: nat, width: nat): (s: string)
    ensures |s| == width && AllDigits(s)
  {
    if width == 0 then [] else PaddedDecimal(n / 10, width - 1) + [DigitChar(n % 10)]
  }

  /** A value that fits in `width` digits reads back from its padded form. */
  lemma {:induction false} PaddedDecimalValue(n: nat, width: nat)
    requires n < Pow10(width)
    ensures DecimalValue(PaddedDecimal(n, width)) == n
  {
    if width > 0 {
      var s := PaddedDecimal(n, width);
      assert s[..|s| - 1] == PaddedDecimal(n / 10, width - 1);
      assert n / 10 < Pow10(width - 1);
      PaddedDecimalValue(n / 10, width - 1);
    }
  }
}
