/** The Kindle clippings extractor (`kindle-clippings/src/lib.rs`), reading
    side: a "My Clippings.txt" text is split into entries, each entry into a
    title line, an info line and the note text, and the clippings are grouped
    by book; a book's short title is derived for its file name. Text is a
    sequence of Unicode scalar values; where the source counts bytes
    (`str::len`, `String::truncate`) the model counts UTF-8 bytes. */
module Clippings {
  import opened Wrappers
  import opened Text

  /** A highlight or a note. The parsed date (`date`), used only to set file
      times, is not modelled. */
  datatype Clipping = Clipping(text: string, hash: string, noteType: string, location: string, dateStr: string)

  /** A book and its clippings in file order. */
  datatype Book = Book(title: string, author: string, clippings: seq<Clipping>)

  // ------------------------------------------------------------ separators

  /** `sep` occurs in `s` at `i`. */
  predicate OccursAt(s: string, sep: string, i: nat) {
    i + |sep| <= |s| && s[i..i + |sep|] == sep
  }

  lemma OccursShift(s: string, sep: string)
    requires s != []
    ensures forall i: nat :: 0 < i ==> (OccursAt(s, sep, i) <==> OccursAt(s[1..], sep, i - 1))
  {
    forall i: nat | 0 < i ensures OccursAt(s, sep, i) <==> OccursAt(s[1..], sep, i - 1) {
      if i + |sep| <= |s| {
        var a, b := s[i..i + |sep|], s[1..][i - 1..i - 1 + |sep|];
        forall k | 0 <= k < |sep| ensures a[k] == b[k] {
          assert a[k] == s[i + k];
        }
        assert s[i..i + |sep|] == s[1..][i - 1..i - 1 + |sep|];
      }
    }
  }

  /** `split(sep).next()`: the text before the first occurrence of `sep`,
      or all of `s`. */
  function Before(s: string, sep: string): (r: string)
    requires sep != []
    ensures |r| <= |s| && r == s[..|r|]
    ensures forall i: nat :: i < |r| ==> !OccursAt(s, sep, i)
    ensures |r| < |s| ==> OccursAt(s, sep, |r|)
    decreases |s|
  {
    if |s| < |sep| then s
    else if s[..|sep|] == sep then []
    else
      OccursShift(s, sep);
      [s[0]] + Before(s[1..], sep)
  }

  /** `split(sep)`: the pieces of `s` between the occurrences of `sep`, found
      from the left. */
  function SplitOn(s: string, sep: string): (ps: seq<string>)
    requires sep != []
    ensures |ps| >= 1
    decreases |s|
  {
    var head := Before(s, sep);
    if |head| == |s| then [s]
    else [head] + SplitOn(s[|head| + |sep|..], sep)
  }

  /** Joining the pieces with `sep` gives the text back. */
  lemma {:induction false} SplitOnJoin(s: string, sep: string)
    requires sep != []
    ensures Join(SplitOn(s, sep), sep) == s
    decreases |s|
  {
    var head := Before(s, sep);
    if |head| < |s| {
      var rest := s[|head| + |sep|..];
      SplitOnJoin(rest, sep);
      SplitOnStep(s, sep);
      JoinCons(head, SplitOn(rest, sep), sep);
      SepSplit(s, |head|, sep);
    }
  }

  /** One step of `split(sep)` when `sep` occurs. */
  lemma SplitOnStep(s: string, sep: string)
    requires sep != [] && |Before(s, sep)| < |s|
    ensures SplitOn(s, sep) == [Before(s, sep)] + SplitOn(s[|Before(s, sep)| + |sep|..], sep)
  {
  }

  lemma JoinCons(head: string, ps: seq<string>, sep: string)
    requires ps != []
    ensures Join([head] + ps, sep) == head + sep + Join(ps, sep)
  {
    assert ([head] + ps)[1..] == ps;
  }

  lemma SepSplit(s: string, n: nat, sep: string)
    requires OccursAt(s, sep, n)
    ensures s == s[..n] + sep + s[n + |sep|..]
  {
    assert s == s[..n] + s[n..n + |sep|] + s[n + |sep|..];
  }

  /** `sep` occurs nowhere in `p`. */
  ghost predicate Clean(p: string, sep: string) {
    forall i: nat :: !OccursAt(p, sep, i)
  }

  /** No piece of `split(sep)` holds `sep`. */
  lemma {:induction false} SplitOnPieces(s: string, sep: string)
    requires sep != []
    ensures forall k :: 0 <= k < |SplitOn(s, sep)| ==> Clean(SplitOn(s, sep)[k], sep)
    decreases |s|
  {
    var head := Before(s, sep);
    BeforeClean(s, sep);
    if |head| < |s| {
      var rest := s[|head| + |sep|..];
      SplitOnPieces(rest, sep);
      SplitOnStep(s, sep);
      CleanCons(head, SplitOn(rest, sep), sep);
    }
  }

  lemma CleanCons(head: string, ps: seq<string>, sep: string)
    requires Clean(head, sep) && forall k :: 0 <= k < |ps| ==> Clean(ps[k], sep)
    ensures forall k :: 0 <= k < |[head] + ps| ==> Clean(([head] + ps)[k], sep)
  {
  }

  /** The text before the first `sep` holds no `sep`. */
  lemma BeforeClean(s: string, sep: string)
    requires sep != []
    ensures Clean(Before(s, sep), sep)
  {
    var head := Before(s, sep);
    forall i: nat
      ensures !OccursAt(head, sep, i)
    {
      if i + |sep| <= |head| {
        assert head[i..i + |sep|] == s[i..i + |sep|];
        assert !OccursAt(s, sep, i);
      }
    }
  }

  /** `trim_start_matches('\u{feff}')`: every leading byte-order mark goes. */
  function StripBoms(s: string): (r: string)
    ensures r == [] || r[0] != '\U{FEFF}'
    ensures |r| <= |s| && r == s[|s| - |r|..]
  {
    if s != [] && s[0] == '\U{FEFF}' then StripBoms(s[1..]) else s
  }

  const SEPARATOR: string := "=========="

  /** The raw entries of a clippings file, in file order. */
  function Entries(content: string): seq<string> {
    SplitOn(StripBoms(content), SEPARATOR)
  }

  // ---------------------------------------------------------------- UTF-8

  /** Bytes of `c` in UTF-8. */
  function Utf8Width(c: char): (n: nat)
    ensures 1 <= n <= 4
  {
    if c as int < 0x80 then 1 else if c as int < 0x800 then 2 else if c as int < 0x1_0000 then 3 else 4
  }

  /** `str::len`: the length of `s` in UTF-8 bytes. */
  function Utf8Len(s: string): (n: nat)
    ensures n >= |s|
  {
    if s == [] then 0 else Utf8Width(s[0]) + Utf8Len(s[1..])
  }

  lemma {:induction false} Utf8LenAppend(a: string, b: string)
    ensures Utf8Len(a + b) == Utf8Len(a) + Utf8Len(b)
  {
    if a != [] {
      assert (a + b)[1..] == a[1..] + b;
      Utf8LenAppend(a[1..], b);
    } else {
      assert a + b == b;
    }
  }

  lemma Utf8LenSlice(s: string, i: nat, j: nat)
    requires i <= j <= |s|
    ensures Utf8Len(s[i..j]) <= Utf8Len(s)
  {
    Utf8LenSplit(s, j);
    Utf8LenSplit(s[..j], i);
    assert s[..j][i..] == s[i..j];
  }

  lemma Utf8LenSplit(s: string, k: nat)
    requires k <= |s|
    ensures Utf8Len(s) == Utf8Len(s[..k]) + Utf8Len(s[k..])
  {
    assert s == s[..k] + s[k..];
    Utf8LenAppend(s[..k], s[k..]);
  }

  /** Below 0x80 a character is one byte. */
  lemma {:induction false} Utf8LenAscii(s: string)
    requires forall i :: 0 <= i < |s| ==> s[i] as int < 0x80
    ensures Utf8Len(s) == |s|
  {
    if s != [] {
      Utf8LenAscii(s[1..]);
    }
  }

  /** `is_char_boundary(n)`: the number of characters making up exactly the
      first `n` bytes, if `n` falls between two characters. */
  function Boundary(s: string, n: nat): (k: Option<nat>)
    ensures k.Some? ==> k.value <= |s|
  {
    if n == 0 then Some(0)
    else if s == [] || Utf8Width(s[0]) > n then None
    else
      match Boundary(s[1..], n - Utf8Width(s[0]))
      case None => None
      case Some(k) => Some(k + 1)
  }

  /** `floor_char_boundary(n)`: the most characters that fit in `n` bytes. */
  function FloorBoundary(s: string, n: nat): (k: nat)
    ensures k <= |s|
  {
    if s == [] || Utf8Width(s[0]) > n then 0 else 1 + FloorBoundary(s[1..], n - Utf8Width(s[0]))
  }

  lemma Utf8LenPrefix(s: string, j: nat)
    requires 0 < j <= |s|
    ensures Utf8Len(s[..j]) == Utf8Width(s[0]) + Utf8Len(s[1..][..j - 1])
  {
    assert s[..j][1..] == s[1..][..j - 1];
  }

  /** `Boundary` finds the prefix of exactly `n` bytes, and there is none
      when it fails. */
  lemma {:induction false} BoundaryIs(s: string, n: nat)
    ensures Boundary(s, n).Some? ==> Utf8Len(s[..Boundary(s, n).value]) == n
    ensures Boundary(s, n).None? ==> forall j :: 0 <= j <= |s| ==> Utf8Len(s[..j]) != n
  {
    if n != 0 && s != [] && Utf8Width(s[0]) <= n {
      BoundaryIs(s[1..], n - Utf8Width(s[0]));
      forall j | 0 < j <= |s| ensures Utf8Len(s[..j]) == Utf8Width(s[0]) + Utf8Len(s[1..][..j - 1]) {
        Utf8LenPrefix(s, j);
      }
    } else if n != 0 {
      forall j | 0 < j <= |s| ensures Utf8Len(s[..j]) != n {
        Utf8LenPrefix(s, j);
      }
    }
  }

  /** `FloorBoundary` keeps within `n` bytes, and one more character would
      not. */
  lemma {:induction false} FloorBoundaryIs(s: string, n: nat)
    ensures Utf8Len(s[..FloorBoundary(s, n)]) <= n
    ensures FloorBoundary(s, n) < |s| ==> Utf8Len(s[..FloorBoundary(s, n) + 1]) > n
  {
    var k := FloorBoundary(s, n);
    if s == [] || Utf8Width(s[0]) > n {
      if s != [] {
        Utf8LenPrefix(s, 1);
      }
    } else {
      FloorBoundaryIs(s[1..], n - Utf8Width(s[0]));
      Utf8LenPrefix(s, k);
      if k < |s| {
        Utf8LenPrefix(s, k + 1);
      }
    }
  }

  // ----------------------------------------------------------- short title

  predicate Banned(c: char) {
    c == '?' || c == ':' || c == '*'
  }

  /** `replace(['?', ':', '*'], "")`. */
  function Unpunctuated(s: string): (r: string)
    ensures |r| <= |s|
    ensures forall i :: 0 <= i < |r| ==> !Banned(r[i])
    ensures forall c :: c in r ==> c in s
    ensures (forall i :: 0 <= i < |s| ==> !Banned(s[i])) ==> r == s
  {
    if s == [] then []
    else if Banned(s[0]) then Unpunctuated(s[1..])
    else [s[0]] + Unpunctuated(s[1..])
  }

  /** `s.split(sep).next().unwrap_or("").trim()`: one cut of the short title. */
  function CutAt(s: string, sep: string): string
    requires sep != []
  {
    Trim(Before(s, sep))
  }

  /** The title up to the first '|', " - " and ". ", trimmed after each cut. */
  function Cut(title: string): string {
    CutAt(CutAt(CutAt(title, "|"), " - "), ". ")
  }

  /** `create_short_title` as written: over 128 bytes, `truncate(127)`
      panics (`None`) unless byte 127 falls between two characters. */
  function ShortTitleAsWritten(title: string): Option<string> {
    var s := Unpunctuated(Cut(title));
    if Utf8Len(s) > 128 then
      match Boundary(s, 127)
      case None => None
      case Some(k) => Some(Trim(s[..k]))
    else Some(Trim(s))
  }

  /** `create_short_title` with the cut made at the last character boundary
      within 127 bytes. */
  function ShortTitle(title: string): string {
    Shortened(Unpunctuated(Cut(title)))
  }

  /** The length limit of `create_short_title`, corrected: over 128 bytes,
      the longest prefix within 127 bytes; then `trim`. */
  function Shortened(s: string): string {
    if Utf8Len(s) > 128 then Trim(s[..FloorBoundary(s, 127)]) else Trim(s)
  }

  // --------------------------------------------------- short-title lemmas

  /** A character missing from `s` is missing from its trimmed form. */
  lemma TrimKeepsOut(s: string, c: char)
    requires c !in s
    ensures c !in Trim(s)
  {
    var i, j := TrimSlice(s);
  }

  /** A character missing from `s` is missing from any piece before `sep`. */
  lemma BeforeKeepsOut(s: string, sep: string, c: char)
    requires sep != [] && c !in s
    ensures c !in Before(s, sep)
  {
    var r := Before(s, sep);
    assert r == s[..|r|];
  }

  /** The piece before the first '|' holds no '|'. */
  lemma BeforeBar(s: string)
    ensures '|' !in Before(s, "|")
  {
    var r := Before(s, "|");
    if '|' in r {
      var k :| 0 <= k < |r| && r[k] == '|';
      assert s[k..k + 1] == "|";
      assert OccursAt(s, "|", k);
    }
  }

  /** `trim` never adds bytes. */
  lemma Utf8LenTrim(s: string)
    ensures Utf8Len(Trim(s)) <= Utf8Len(s)
  {
    var i, j := TrimSlice(s);
    Utf8LenSlice(s, i, j);
  }

  /** The cuts leave no '|'. */
  lemma CutHasNoBar(title: string)
    ensures '|' !in Cut(title)
  {
    var a := Before(title, "|");
    BeforeBar(title);
    TrimKeepsOut(a, '|');
    var b := CutAt(title, "|");
    BeforeKeepsOut(b, " - ", '|');
    TrimKeepsOut(Before(b, " - "), '|');
    var c := CutAt(b, " - ");
    BeforeKeepsOut(c, ". ", '|');
    TrimKeepsOut(Before(c, ". "), '|');
  }

  /** `trim` keeps only characters that were there. */
  lemma TrimKeepsBanned(s: string)
    requires forall i :: 0 <= i < |s| ==> !Banned(s[i])
    ensures forall i :: 0 <= i < |Trim(s)| ==> !Banned(Trim(s)[i])
  {
    var i, j := TrimSlice(s);
    forall k | 0 <= k < j - i ensures !Banned(s[i..j][k]) {
      assert s[i..j][k] == s[i + k];
    }
  }

  /** The short title holds no '|', '?', ':' or '*', has no whitespace at
      either end and is at most 128 bytes long. */
  lemma ShortTitleShape(title: string)
    ensures '|' !in ShortTitle(title)
    ensures forall i :: 0 <= i < |ShortTitle(title)| ==> !Banned(ShortTitle(title)[i])
    ensures Trimmed(ShortTitle(title))
    ensures Utf8Len(ShortTitle(title)) <= 128
  {
    CutHasNoBar(title);
    ShortenedShape(Unpunctuated(Cut(title)));
  }

  /** The length limit keeps characters of `s` only, and at most 128 bytes. */
  lemma ShortenedShape(s: string)
    requires '|' !in s
    requires forall i :: 0 <= i < |s| ==> !Banned(s[i])
    ensures '|' !in Shortened(s)
    ensures forall i :: 0 <= i < |Shortened(s)| ==> !Banned(Shortened(s)[i])
    ensures Trimmed(Shortened(s))
    ensures Utf8Len(Shortened(s)) <= 128
  {
    var x := if Utf8Len(s) > 128 then s[..FloorBoundary(s, 127)] else s;
    assert x == s[..|x|];
    assert Shortened(s) == Trim(x);
    TrimKeepsOut(x, '|');
    TrimKeepsBanned(x);
    Utf8LenTrim(x);
    if Utf8Len(s) > 128 {
      FloorBoundaryIs(s, 127);
    }
  }

  /** A cut at a separator holding a character that never occurs leaves a
      whitespace-free text as it is. */
  lemma CutAtAbsent(s: string, sep: string, c: char)
    requires sep != [] && c in sep && c !in s && NoWhitespace(s)
    ensures CutAt(s, sep) == s
  {
    assert Before(s, sep) == s;
    TrimOfNoWhitespace(s);
  }

  /** A title with no whitespace, '|', '?', ':' or '*' and no longer than
      128 bytes is its own short title. */
  lemma ShortTitleOfShort(title: string)
    requires Utf8Len(title) <= 128
    requires forall i :: 0 <= i < |title| ==> !IsWhitespace(title[i]) && title[i] != '|' && !Banned(title[i])
    ensures ShortTitle(title) == title
  {
    PlainUncut(title);
    assert NoWhitespace(title);
    ShortenedOfShort(title);
  }

  /** A whitespace-free text within 128 bytes is left as it is. */
  lemma ShortenedOfShort(s: string)
    requires Utf8Len(s) <= 128 && NoWhitespace(s)
    ensures Shortened(s) == s
  {
    TrimOfNoWhitespace(s);
  }

  /** A whitespace-free title without '|', '?', ':' or '*' passes the cuts
      and the character removal unchanged. */
  lemma PlainUncut(title: string)
    requires forall i :: 0 <= i < |title| ==> !IsWhitespace(title[i]) && title[i] != '|' && !Banned(title[i])
    ensures Unpunctuated(Cut(title)) == title
  {
    assert NoWhitespace(title);
    assert ' ' !in title;
    CutAtAbsent(title, "|", '|');
    CutAtAbsent(title, " - ", ' ');
    CutAtAbsent(title, ". ", ' ');
  }

  /** Prefixes with more characters have more bytes. */
  lemma Utf8LenPrefixGrows(s: string, j: nat, k: nat)
    requires j < k <= |s|
    ensures Utf8Len(s[..j]) < Utf8Len(s[..k])
  {
    assert s[..k] == s[..j] + s[j..k];
    Utf8LenAppend(s[..j], s[j..k]);
  }

  /** When byte `n` falls between two characters, the floor boundary is
      that place. */
  lemma FloorAtBoundary(s: string, n: nat)
    requires Boundary(s, n).Some?
    ensures FloorBoundary(s, n) == Boundary(s, n).value
  {
    var k := Boundary(s, n).value;
    var f := FloorBoundary(s, n);
    BoundaryIs(s, n);
    FloorBoundaryIs(s, n);
    if f + 1 < k {
      Utf8LenPrefixGrows(s, f + 1, k);
    } else if k < f {
      Utf8LenPrefixGrows(s, k, f);
    }
  }

  /** Where `truncate(127)` does not panic, it cuts where the corrected
      version cuts. */
  lemma ShortTitleAgrees(title: string)
    requires ShortTitleAsWritten(title).Some?
    ensures ShortTitleAsWritten(title).value == ShortTitle(title)
  {
    var s := Unpunctuated(Cut(title));
    if Utf8Len(s) > 128 {
      FloorAtBoundary(s, 127);
    }
  }

  /** Lower-case ASCII letters: one byte each, never whitespace or cut. */
  predicate Letters(a: string) {
    forall i :: 0 <= i < |a| ==> 'a' <= a[i] <= 'z'
  }

  /** 126 letters, then 'é' (two bytes) and 'z' make a title of 129 bytes. */
  lemma AccentedTitleBytes(a: string)
    requires Letters(a) && |a| == 126
    ensures Utf8Len(a) == 126
    ensures Utf8Len(a + "\U{E9}") == 128
    ensures Utf8Len(a + "\U{E9}z") == 129
  {
    Utf8LenAscii(a);
    Utf8LenAppend(a, "\U{E9}");
    Utf8LenAppend(a, "\U{E9}z");
  }

  /** The bytes in each prefix of such a title. */
  lemma AccentedPrefixBytes(a: string, j: nat)
    requires Letters(a) && |a| == 126 && j <= 128
    ensures Utf8Len((a + "\U{E9}z")[..j]) == if j <= 126 then j else j + 1
  {
    var t := a + "\U{E9}z";
    AccentedTitleBytes(a);
    if j <= 126 {
      assert t[..j] == a[..j];
      Utf8LenAscii(a[..j]);
    } else if j == 127 {
      assert t[..j] == a + "\U{E9}";
    } else {
      assert t[..j] == t;
    }
  }

  /** No prefix of such a title is exactly 127 bytes long. */
  lemma AccentedTitleNoBoundary(a: string)
    requires Letters(a) && |a| == 126
    ensures Boundary(a + "\U{E9}z", 127).None?
  {
    var t := a + "\U{E9}z";
    forall j | 0 <= j <= |t| ensures Utf8Len(t[..j]) != 127 {
      AccentedPrefixBytes(a, j);
    }
    BoundaryIs(t, 127);
  }

  /** The most characters of such a title within 127 bytes are the letters. */
  lemma AccentedTitleFloor(a: string)
    requires Letters(a) && |a| == 126
    ensures FloorBoundary(a + "\U{E9}z", 127) == 126
  {
    var t := a + "\U{E9}z";
    var f := FloorBoundary(t, 127);
    FloorBoundaryIs(t, 127);
    AccentedPrefixBytes(a, f);
    if f < |t| {
      AccentedPrefixBytes(a, f + 1);
    }
  }

  /** The letters are what the cut within 127 bytes keeps. */
  lemma AccentedTitleTruncated(a: string)
    requires Letters(a) && |a| == 126
    ensures Trim((a + "\U{E9}z")[..FloorBoundary(a + "\U{E9}z", 127)]) == a
  {
    AccentedTitleFloor(a);
    assert (a + "\U{E9}z")[..126] == a;
    assert NoWhitespace(a);
    TrimOfNoWhitespace(a);
  }

  /** Such a title passes the cuts unchanged. */
  lemma AccentedTitleUncut(a: string)
    requires Letters(a) && |a| == 126
    ensures Unpunctuated(Cut(a + "\U{E9}z")) == a + "\U{E9}z"
  {
    var t := a + "\U{E9}z";
    assert forall i :: 0 <= i < |t| ==> 'a' <= t[i] <= 'z' || t[i] == '\U{E9}';
    PlainUncut(t);
  }

  /** Byte 127 of such a title falls inside the 'é', so `truncate(127)`
      panics. */
  lemma AccentedTitlePanics(a: string)
    requires Letters(a) && |a| == 126
    ensures ShortTitleAsWritten(a + "\U{E9}z").None?
  {
    AccentedTitleUncut(a);
    AccentedTitleBytes(a);
    AccentedTitleNoBoundary(a);
  }

  /** The corrected cut keeps the 126 letters. */
  lemma AccentedTitleShortened(a: string)
    requires Letters(a) && |a| == 126
    ensures ShortTitle(a + "\U{E9}z") == a
  {
    AccentedTitleUncut(a);
    AccentedTitleBytes(a);
    AccentedTitleTruncated(a);
    LongUncutTitle(a + "\U{E9}z", a);
  }

  /** A long title the cuts leave alone is shortened to its longest prefix
      within 127 bytes, trimmed. */
  lemma LongUncutTitle(title: string, short: string)
    requires Unpunctuated(Cut(title)) == title && Utf8Len(title) > 128
    requires Trim(title[..FloorBoundary(title, 127)]) == short
    ensures ShortTitle(title) == short
  {
  }
}
