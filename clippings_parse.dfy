/** `parse_clippings_file` of the Kindle clippings extractor
    (`kindle-clippings/src/lib.rs`): each entry's title line gives the book's
    title and author (`RE_TITLE`), its info line the note type, location and
    date (`RE_INFO`), the rest the note text, hashed with SHA-256; the
    clippings are then grouped by title line. SHA-256 is a parameter. */
module ClippingsParse {
  import opened Wrappers
  import opened Text
  import opened Clippings

  // ------------------------------------------------------- title and author

  /** No ')' strictly after `i` up to and including `k`. */
  predicate ClearTo(line: string, i: int, k: int)
    requires k < |line|
  {
    forall j :: i < j <= k && 0 <= j ==> line[j] != ')'
  }

  /** `RE_TITLE` (`^(.*)\s*\(([^)]+)\)$`) can take its '(' at `p`: the line
      ends with ')', and between the '(' and that ')' lie one or more
      characters, none of them ')'. */
  predicate OpensAuthor(line: string, p: nat) {
    p + 2 < |line| && line[|line| - 1] == ')' && line[p] == '(' && ClearTo(line, p, |line| - 2)
  }

  /** The last '(' at or before `k` that no ')' follows up to `k`. */
  function LastOpen(line: string, k: int): (p: Option<nat>)
    requires k < |line|
    ensures p.Some? ==> p.value <= k && line[p.value] == '(' && ClearTo(line, p.value, k)
    ensures p.Some? ==> forall i :: p.value < i <= k ==> line[i] != '('
    ensures p.None? ==> forall i :: 0 <= i <= k && line[i] == '(' ==> !ClearTo(line, i, k)
    decreases k + 1
  {
    if k < 0 then None
    else if line[k] == '(' then Some(k)
    else if line[k] == ')' then None
    else LastOpen(line, k - 1)
  }

  /** Where the greedy `(.*)` of `RE_TITLE` leaves the '(': the last place it
      can open the author part, if any. */
  function AuthorParen(line: string): (p: Option<nat>)
    ensures p.Some? ==> OpensAuthor(line, p.value)
    ensures p.Some? ==> forall q: nat :: p.value < q ==> !OpensAuthor(line, q)
    ensures p.None? ==> forall q: nat :: !OpensAuthor(line, q)
  {
    if |line| < 3 || line[|line| - 1] != ')' || line[|line| - 2] == ')' then None
    else LastOpen(line, |line| - 3)
  }

  /** The title and the author of a title line: around the last '(' that
      `RE_TITLE` can use, both trimmed; with no such '(', the trimmed line
      and "Unknown". */
  function TitleAuthor(line: string): (r: (string, string))
    requires '\n' !in line
    ensures (forall q: nat :: !OpensAuthor(line, q)) ==> r == (Trim(line), "Unknown")
    ensures forall p: nat :: OpensAuthor(line, p) && (forall q: nat :: p < q ==> !OpensAuthor(line, q)) ==>
      r == (Trim(line[..p]), Trim(line[p + 1..|line| - 1]))
  {
    match AuthorParen(line)
    case None => (Trim(line), "Unknown")
    case Some(p) =>
      LastOpenerUnique(line, p);
      (Trim(line[..p]), Trim(line[p + 1..|line| - 1]))
  }

  /** Only one '(' can open the author and have none after it. */
  lemma LastOpenerUnique(line: string, p: nat)
    requires OpensAuthor(line, p) && forall q: nat :: p < q ==> !OpensAuthor(line, q)
    ensures forall q: nat :: OpensAuthor(line, q) && (forall q': nat :: q < q' ==> !OpensAuthor(line, q')) ==> q == p
  {
  }

  /** "Title (Author)" gives back the title and the author, whatever
      parentheses the title holds. */
  lemma TitleAuthorOf(t: string, a: string)
    requires Trimmed(t) && '\n' !in t
    requires a != [] && Trimmed(a) && '(' !in a && ')' !in a && '\n' !in a
    ensures TitleAuthor(t + " (" + a + ")") == (t, a)
  {
    var line := t + " (" + a + ")";
    AuthorOpensAfter(t, a);
    TitleAuthorAt(line, |t| + 1);
    TitleLineParts(t, a);
  }

  /** `TitleAuthor` splits around the last '(' that can open the author. */
  lemma TitleAuthorAt(line: string, p: nat)
    requires '\n' !in line && OpensAuthor(line, p)
    requires forall q: nat :: p < q ==> !OpensAuthor(line, q)
    ensures TitleAuthor(line) == (Trim(line[..p]), Trim(line[p + 1..|line| - 1]))
  {
  }

  /** The trimmed pieces of "Title (Author)" around the '('. */
  lemma TitleLineParts(t: string, a: string)
    requires Trimmed(t) && Trimmed(a) && a != []
    ensures Trim((t + " (" + a + ")")[..|t| + 1]) == t
    ensures Trim((t + " (" + a + ")")[|t| + 2..|t| + |a| + 2]) == a
  {
    var line := t + " (" + a + ")";
    assert line[..|t| + 1] == [] + t + " ";
    assert line[|t| + 2..|t| + |a| + 2] == [] + a + [];
    TrimmedAround([], t, " ");
    TrimmedAround([], a, []);
  }

  /** In "Title (Author)" the author part opens at the '(' after the title
      and at no later place. */
  lemma AuthorOpensAfter(t: string, a: string)
    requires a != [] && '(' !in a && ')' !in a
    ensures OpensAuthor(t + " (" + a + ")", |t| + 1)
    ensures forall q: nat :: |t| + 1 < q ==> !OpensAuthor(t + " (" + a + ")", q)
  {
    var line := t + " (" + a + ")";
    var p := |t| + 1;
    forall j | p < j < |line| - 1 ensures line[j] != ')' && line[j] != '(' {
      assert line[j] == a[j - p - 1];
    }
  }

  // -------------------------------------------------------------- info line

  /** Note type, location and date of a clipping. */
  datatype Info = Info(noteType: string, location: string, dateStr: string)

  /** What an info line `RE_INFO` does not match gives. */
  const UNKNOWN_INFO := Info("Unknown", "", "")

  /** `[\d\-]`, with `\d` taken as the ASCII digits. */
  predicate IsPageChar(c: char) {
    IsDigit(c) || c == '-'
  }

  /** `[\d\-]+`: a page or location number or range. */
  predicate IsPages(s: string) {
    s != [] && forall i :: 0 <= i < |s| ==> IsPageChar(s[i])
  }

  /** Length of the leading run of `[\d\-]`. */
  function PageRun(s: string): (n: nat)
    ensures n <= |s|
    ensures forall i :: 0 <= i < n ==> IsPageChar(s[i])
    ensures n < |s| ==> !IsPageChar(s[n])
  {
    if s != [] && IsPageChar(s[0]) then 1 + PageRun(s[1..]) else 0
  }

  /** A run of page characters followed by a space is the whole run. */
  lemma PageRunOf(p: string, rest: string)
    requires IsPages(p) && rest != [] && rest[0] == ' '
    ensures PageRun(p + rest) == |p|
  {
    assert (p + rest)[|p|] == ' ';
  }

  /** A line of the first `RE_INFO` form,
      "- Your {w} on page {p} | Location {l} | Added on {d}". */
  predicate InfoLine(line: string, w: string, p: string, l: string, d: string) {
    line == InfoText(w, p, l, d) && IsToken(w) && IsPages(p) && IsPages(l) && d != []
  }

  /** "- Your {w} on page {p} | Location {l} | Added on {d}". */
  function InfoText(w: string, p: string, l: string, d: string): string {
    "- Your " + (w + (" on page " + (p + (" | Location " + (l + (" | Added on " + d))))))
  }

  /** The info of an info line: the note type, "p.{page}, loc.{location}" and
      the date when the line has the first `RE_INFO` form (the other forms
      are tried only if that pattern failed to compile, which it does not),
      and `UNKNOWN_INFO` for any other line. */
  function InfoOf(line: string): (r: Info)
    requires '\n' !in line
    ensures r == UNKNOWN_INFO || r.location != []
  {
    match StripPrefix(line, "- Your ")
    case None => UNKNOWN_INFO
    case Some(s) => InfoAfterYour(s)
  }

  /** `(\S+) on page ` and what follows. */
  function InfoAfterYour(s: string): (r: Info)
    ensures r == UNKNOWN_INFO || r.location != []
  {
    var n := WordLength(s);
    if n == 0 then UNKNOWN_INFO
    else
      match StripPrefix(s[n..], " on page ")
      case None => UNKNOWN_INFO
      case Some(rest) => InfoAfterPage(s[..n], rest)
  }

  /** `([\d\-]+) \| Location ` and what follows. */
  function InfoAfterPage(w: string, s: string): (r: Info)
    ensures r == UNKNOWN_INFO || r.location != []
  {
    var n := PageRun(s);
    if n == 0 then UNKNOWN_INFO
    else
      match StripPrefix(s[n..], " | Location ")
      case None => UNKNOWN_INFO
      case Some(rest) => InfoAfterLocation(w, s[..n], rest)
  }

  /** `([\d\-]+) \| Added on (.+)$`. */
  function InfoAfterLocation(w: string, p: string, s: string): (r: Info)
    ensures r == UNKNOWN_INFO || r.location != []
  {
    var n := PageRun(s);
    if n == 0 then UNKNOWN_INFO
    else
      match StripPrefix(s[n..], " | Added on ")
      case None => UNKNOWN_INFO
      case Some(d) => if d == [] then UNKNOWN_INFO else Info(w, "p." + p + ", loc." + s[..n], d)
  }

  lemma StripPrefixOf(prefix: string, rest: string)
    ensures StripPrefix(prefix + rest, prefix) == Some(rest)
  {
    assert (prefix + rest)[..|prefix|] == prefix;
  }

  /** An info line of the first form yields its type, its page and location
      and its date. */
  lemma InfoOfLine(line: string, w: string, p: string, l: string, d: string)
    requires InfoLine(line, w, p, l, d) && '\n' !in line
    ensures InfoOf(line) == Info(w, "p." + p + ", loc." + l, d)
  {
    var s1 := " on page " + (p + (" | Location " + (l + (" | Added on " + d))));
    StripPrefixOf("- Your ", w + s1);
    WordLengthOfToken(w, s1);
    assert (w + s1)[..|w|] == w && (w + s1)[|w|..] == s1;
    StripPrefixOf(" on page ", p + (" | Location " + (l + (" | Added on " + d))));
    AfterPageOf(w, p, l, d);
  }

  lemma AfterPageOf(w: string, p: string, l: string, d: string)
    requires IsPages(p) && IsPages(l) && d != []
    ensures InfoAfterPage(w, p + (" | Location " + (l + (" | Added on " + d)))) == Info(w, "p." + p + ", loc." + l, d)
  {
    var s2 := " | Location " + (l + (" | Added on " + d));
    PageRunOf(p, s2);
    assert (p + s2)[..|p|] == p && (p + s2)[|p|..] == s2;
    StripPrefixOf(" | Location ", l + (" | Added on " + d));
    AfterLocationOf(w, p, l, d);
  }

  lemma AfterLocationOf(w: string, p: string, l: string, d: string)
    requires IsPages(l) && d != []
    ensures InfoAfterLocation(w, p, l + (" | Added on " + d)) == Info(w, "p." + p + ", loc." + l, d)
  {
    var s3 := " | Added on " + d;
    PageRunOf(l, s3);
    assert (l + s3)[..|l|] == l && (l + s3)[|l|..] == s3;
    StripPrefixOf(" | Added on ", d);
  }

  /** A line `InfoOf` does not reject has the first form, and its info is
      read off that form. */
  lemma InfoOfParsed(line: string) returns (w: string, p: string, l: string, d: string)
    requires '\n' !in line && InfoOf(line) != UNKNOWN_INFO
    ensures InfoLine(line, w, p, l, d)
    ensures InfoOf(line) == Info(w, "p." + p + ", loc." + l, d)
  {
    var s := StripPrefix(line, "- Your ").value;
    w, p, l, d := AfterYourParsed(s);
  }

  lemma AfterYourParsed(s: string) returns (w: string, p: string, l: string, d: string)
    requires InfoAfterYour(s) != UNKNOWN_INFO
    ensures s == w + (" on page " + (p + (" | Location " + (l + (" | Added on " + d)))))
    ensures IsToken(w) && IsPages(p) && IsPages(l) && d != []
    ensures InfoAfterYour(s) == Info(w, "p." + p + ", loc." + l, d)
  {
    var n := WordLength(s);
    var rest := StripPrefix(s[n..], " on page ").value;
    w := s[..n];
    SplitAt(s, n);
    LeadingWord(s);
    p, l, d := AfterPageParsed(w, rest);
  }

  lemma SplitAt(s: string, n: nat)
    requires n <= |s|
    ensures s == s[..n] + s[n..]
  {
  }

  /** The leading run of non-whitespace, when there is one, is a word. */
  lemma LeadingWord(s: string)
    requires WordLength(s) > 0
    ensures IsToken(s[..WordLength(s)])
  {
  }

  lemma AfterPageParsed(w: string, s: string) returns (p: string, l: string, d: string)
    requires InfoAfterPage(w, s) != UNKNOWN_INFO
    ensures s == p + (" | Location " + (l + (" | Added on " + d)))
    ensures IsPages(p) && IsPages(l) && d != []
    ensures InfoAfterPage(w, s) == Info(w, "p." + p + ", loc." + l, d)
  {
    var n := PageRun(s);
    var rest := StripPrefix(s[n..], " | Location ").value;
    p := s[..n];
    SplitAt(s, n);
    l, d := AfterLocationParsed(w, p, rest);
  }

  lemma AfterLocationParsed(w: string, p: string, s: string) returns (l: string, d: string)
    requires InfoAfterLocation(w, p, s) != UNKNOWN_INFO
    ensures s == l + (" | Added on " + d)
    ensures IsPages(l) && d != []
    ensures InfoAfterLocation(w, p, s) == Info(w, "p." + p + ", loc." + l, d)
  {
    var n := PageRun(s);
    d := StripPrefix(s[n..], " | Added on ").value;
    l := s[..n];
    SplitAt(s, n);
  }

  /** The location-only form "- Your {w} on Location {l} | Added on {d}"
      gives `UNKNOWN_INFO`: its pattern is never compiled. */
  lemma LocationOnlyUnknown(w: string, l: string, d: string)
    requires IsToken(w)
    ensures InfoAfterYour(w + (" on Location " + (l + (" | Added on " + d)))) == UNKNOWN_INFO
  {
    var s1 := " on Location " + (l + (" | Added on " + d));
    WordLengthOfToken(w, s1);
    assert (w + s1)[|w|..] == s1;
    NotPrefix(s1, " on page ", 4);
  }

  /** A text that differs from `prefix` at some place does not start with it. */
  lemma NotPrefix(s: string, prefix: string, i: nat)
    requires i < |prefix| && i < |s| && s[i] != prefix[i]
    ensures StripPrefix(s, prefix) == None
  {
    if |prefix| <= |s| {
      assert s[..|prefix|][i] == s[i];
    }
  }

  /** The page-only form "- Your {w} on page {p} | Added on {d}" gives
      `UNKNOWN_INFO` too. */
  lemma PageOnlyUnknown(w: string, p: string, d: string)
    requires IsPages(p)
    ensures InfoAfterPage(w, p + (" | Added on " + d)) == UNKNOWN_INFO
  {
    var s2 := " | Added on " + d;
    PageRunOf(p, s2);
    assert (p + s2)[|p|..] == s2;
    NotPrefix(s2, " | Location ", 3);
  }

  /** And so does "- Your {w} | Location {l} | Added on {d}". */
  lemma NoPageUnknown(w: string, l: string, d: string)
    requires IsToken(w)
    ensures InfoAfterYour(w + (" | Location " + (l + (" | Added on " + d)))) == UNKNOWN_INFO
  {
    var s1 := " | Location " + (l + (" | Added on " + d));
    WordLengthOfToken(w, s1);
    assert (w + s1)[|w|..] == s1;
    NotPrefix(s1, " on page ", 1);
  }

  // ---------------------------------------------------------------- hashing

  /** A SHA-256 digest: 32 bytes. */
  type Digest = d: seq<bv8> | |d| == 32 witness seq(32, _ => 0 as bv8)

  predicate IsLowerHex(c: char) {
    '0' <= c <= '9' || 'a' <= c <= 'f'
  }

  /** Eight lower-case hex digits: the form of a short hash. */
  predicate IsHash(h: string) {
    |h| == 8 && forall i :: 0 <= i < 8 ==> IsLowerHex(h[i])
  }

  function HexDigit(n: bv8): (c: char)
    requires n < 16
    ensures IsLowerHex(c)
  {
    if n < 10 then ('0' as int + n as int) as char else ('a' as int + n as int - 10) as char
  }

  /** `format!("{:x}", digest)`: two lower-case hex digits per byte, high
      nibble first. */
  function HexOf(bytes: seq<bv8>): (h: string)
    ensures |h| == 2 * |bytes|
    ensures forall i :: 0 <= i < |h| ==> IsLowerHex(h[i])
  {
    if bytes == [] then [] else [HexDigit(bytes[0] >> 4), HexDigit(bytes[0] & 0xF)] + HexOf(bytes[1..])
  }

  /** `hash[..8]`: the first eight hex digits of the digest. */
  function ShortHash(d: Digest): (h: string)
    ensures IsHash(h)
  {
    HexOf(d)[..8]
  }

  lemma {:induction false} HexOfAppend(a: seq<bv8>, b: seq<bv8>)
    ensures HexOf(a + b) == HexOf(a) + HexOf(b)
  {
    if a != [] {
      assert (a + b)[1..] == a[1..] + b;
      HexOfAppend(a[1..], b);
    } else {
      assert a + b == b;
    }
  }

  /** The short hash is the hex form of the digest's first four bytes. */
  lemma ShortHashOfFirstBytes(d: Digest)
    ensures ShortHash(d) == HexOf(d[..4])
  {
    assert d == d[..4] + d[4..];
    HexOfAppend(d[..4], d[4..]);
  }

  // ---------------------------------------------------------------- entries

  /** One parsed entry: its exact title line, the title and author read from
      it, and the clipping. */
  datatype Parsed = Parsed(titleLine: string, title: string, author: string, clipping: Clipping)

  /** `context("Entry missing info line")`. */
  datatype ParseError = MissingInfoLine

  /** What every parsed entry satisfies. */
  predicate WellParsed(p: Parsed) {
    && '\n' !in p.titleLine
    && (p.title, p.author) == TitleAuthor(p.titleLine)
    && p.clipping.text != [] && Trimmed(p.clipping.text)
    && IsHash(p.clipping.hash)
  }

  /** The note text of an entry's lines: those after the title line, the
      info line and one skipped line, joined with '\n' and trimmed. */
  function NoteText(lines: seq<string>): string {
    Trim(Join(lines[if |lines| < 3 then |lines| else 3..], "\n"))
  }

  /** One entry of the loop of `parse_clippings_file`: `Ok(None)` when it is
      skipped (blank, or no note text), an error when it has no info line. */
  function ParseEntry(raw: string, sha: string -> Digest): (r: Result<Option<Parsed>, ParseError>)
    ensures r.Err? <==> Trim(raw) != [] && '\n' !in Trim(raw)
    ensures r.Ok? && r.value.Some? ==> WellParsed(r.value.value)
    ensures r.Ok? && r.value.Some? ==> r.value.value.clipping.hash == ShortHash(sha(r.value.value.clipping.text))
  {
    var e := Trim(raw);
    if e == [] then Ok(None)
    else
      var lines := Lines(e);
      LinesOfEntry(e);
      if |lines| < 2 then Err(MissingInfoLine)
      else
        var text := NoteText(lines);
        if text == [] then Ok(None)
        else
          var info := InfoOf(lines[1]);
          var (title, author) := TitleAuthor(lines[0]);
          Ok(Some(Parsed(lines[0], title, author, Clipping(text, ShortHash(sha(text)), info.noteType, info.location, info.dateStr))))
  }

  /** A trimmed entry has a second line exactly when it holds a '\n'. */
  lemma LinesOfEntry(e: string)
    requires e != [] && Trimmed(e)
    ensures |Lines(e)| >= 2 <==> '\n' in e
  {
    var i := IndexOf(e, '\n');
    if i < |e| {
      assert IsWhitespace(e[i]);
      assert Lines(e) == [StripCR(e[..i])] + Lines(e[i + 1..]);
    }
  }

  /** How the Kindle lays out an entry: title line, info line, a blank line
      and the note, with CRLF line endings. */
  function Layout(title: string, info: string, text: string): string {
    title + "\r\n" + (info + "\r\n" + ("\r\n" + text))
  }

  /** An entry laid out as the Kindle writes it, with any whitespace around
      it, parses back into its title line, its info and its note. */
  lemma ParseEntryOf(ws1: string, title: string, info: string, text: string, ws2: string, sha: string -> Digest)
    requires forall i :: 0 <= i < |ws1| ==> IsWhitespace(ws1[i])
    requires forall i :: 0 <= i < |ws2| ==> IsWhitespace(ws2[i])
    requires title != [] && !IsWhitespace(title[0]) && '\n' !in title && '\n' !in info
    requires text != [] && Trimmed(text) && '\n' !in text
    ensures ParseEntry(ws1 + Layout(title, info, text) + ws2, sha)
      == Ok(Some(Parsed(title, TitleAuthor(title).0, TitleAuthor(title).1,
                        Clipping(text, ShortHash(sha(text)), InfoOf(info).noteType, InfoOf(info).location, InfoOf(info).dateStr))))
  {
    var e := Layout(title, info, text);
    LayoutTrimmed(title, info, text);
    TrimmedAround(ws1, e, ws2);
    LinesOfLayout(title, info, text);
    NoteTextOf(title, info, text);
  }

  lemma LayoutTrimmed(title: string, info: string, text: string)
    requires title != [] && !IsWhitespace(title[0])
    requires text != [] && Trimmed(text)
    ensures Trimmed(Layout(title, info, text))
  {
    var e := Layout(title, info, text);
    assert e[0] == title[0];
    assert e[|e| - 1] == text[|text| - 1];
  }

  lemma LinesOfLayout(title: string, info: string, text: string)
    requires '\n' !in title && '\n' !in info && text != [] && '\n' !in text
    ensures Lines(Layout(title, info, text)) == [title, info, [], text]
  {
    var r2 := "\r\n" + text;
    LinesCRLF(title, info + "\r\n" + r2);
    LinesCRLF(info, r2);
    LinesBlank(text);
    LinesLast(text);
  }

  /** A line ending at the very start gives an empty first line. */
  lemma LinesBlank(text: string)
    ensures Lines("\r\n" + text) == [[]] + Lines(text)
  {
    var s := "\r\n" + text;
    assert s[0] == '\r' && s[1] == '\n';
    assert IndexOf(s, '\n') == 1;
    assert s[..1] == "\r";
    assert s[2..] == text;
  }

  lemma NoteTextOf(title: string, info: string, text: string)
    requires Trimmed(text)
    ensures NoteText([title, info, [], text]) == text
  {
    assert [title, info, [], text][3..] == [text];
    TrimmedAround([], text, []);
    assert [] + text + [] == text;
  }

  // --------------------------------------------------------------- the file

  function Found(o: Option<Parsed>): seq<Parsed> {
    if o.Some? then [o.value] else []
  }

  /** Each raw entry, parsed. */
  function ParsedEntries(entries: seq<string>, sha: string -> Digest): (rs: seq<Result<Option<Parsed>, ParseError>>)
    ensures |rs| == |entries|
  {
    seq(|entries|, i requires 0 <= i < |entries| => ParseEntry(entries[i], sha))
  }

  /** The parsed entries in file order, or the first error. */
  function CollectResults(rs: seq<Result<Option<Parsed>, ParseError>>): (r: Result<seq<Parsed>, ParseError>)
    ensures r.Err? <==> exists i :: 0 <= i < |rs| && rs[i].Err?
    ensures r.Ok? ==> |r.value| <= |rs|
  {
    if rs == [] then Ok([])
    else
      assert forall i :: 1 <= i < |rs| ==> rs[1..][i - 1] == rs[i];
      match rs[0]
      case Err(e) => Err(e)
      case Ok(o) =>
        match CollectResults(rs[1..])
        case Err(e) => Err(e)
        case Ok(ps) => Ok(Found(o) + ps)
  }

  /** The parsed entries of the file in order, or the error of the first
      entry without an info line. */
  function Collect(entries: seq<string>, sha: string -> Digest): Result<seq<Parsed>, ParseError> {
    CollectResults(ParsedEntries(entries, sha))
  }

  /** The whole parse fails exactly when some entry has no info line. */
  lemma CollectFails(entries: seq<string>, sha: string -> Digest)
    ensures Collect(entries, sha).Err? <==> exists i :: 0 <= i < |entries| && Trim(entries[i]) != [] && '\n' !in Trim(entries[i])
  {
    var rs := ParsedEntries(entries, sha);
    forall i | 0 <= i < |entries| ensures rs[i].Err? <==> Trim(entries[i]) != [] && '\n' !in Trim(entries[i]) {
      assert rs[i] == ParseEntry(entries[i], sha);
    }
  }

  /** Every entry collected is well formed. */
  lemma {:induction false} CollectedWellParsed(rs: seq<Result<Option<Parsed>, ParseError>>)
    requires forall i :: 0 <= i < |rs| && rs[i].Ok? && rs[i].value.Some? ==> WellParsed(rs[i].value.value)
    ensures CollectResults(rs).Ok? ==> forall i :: 0 <= i < |CollectResults(rs).value| ==> WellParsed(CollectResults(rs).value[i])
  {
    if rs != [] {
      assert forall i :: 1 <= i < |rs| ==> rs[1..][i - 1] == rs[i];
      CollectedWellParsed(rs[1..]);
    }
  }

  /** Each parsed entry satisfies `WellParsed`. */
  lemma ParsedEntriesWellParsed(entries: seq<string>, sha: string -> Digest)
    ensures forall i :: 0 <= i < |entries| && ParsedEntries(entries, sha)[i].Ok? && ParsedEntries(entries, sha)[i].value.Some? ==>
      WellParsed(ParsedEntries(entries, sha)[i].value.value)
  {
    var rs := ParsedEntries(entries, sha);
    forall i | 0 <= i < |entries| && rs[i].Ok? && rs[i].value.Some? ensures WellParsed(rs[i].value.value) {
      assert rs[i] == ParseEntry(entries[i], sha);
    }
  }

  /** `books.entry(title_line).or_default()`, then the title and author set
      and the clipping pushed. */
  function AddParsed(books: map<string, Book>, p: Parsed): map<string, Book> {
    var prior := if p.titleLine in books then books[p.titleLine].clippings else [];
    books[p.titleLine := Book(p.title, p.author, prior + [p.clipping])]
  }

  /** The book map after the parsed entries, added in order. */
  function Group(ps: seq<Parsed>): map<string, Book> {
    if ps == [] then map[] else AddParsed(Group(ps[..|ps| - 1]), ps[|ps| - 1])
  }

  /** The clippings of the entries with title line `k`, in file order. */
  function ClippingsFor(ps: seq<Parsed>, k: string): seq<Clipping> {
    if ps == [] then []
    else
      var p := ps[|ps| - 1];
      ClippingsFor(ps[..|ps| - 1], k) + (if p.titleLine == k then [p.clipping] else [])
  }

  lemma GroupAppend(done: seq<Parsed>, p: Parsed)
    ensures Group(done + [p]) == AddParsed(Group(done), p)
  {
    assert (done + [p])[..|done|] == done;
  }

  /** Every title line met gets one book: the title and author read from
      that line, and the clippings of its entries in file order. */
  lemma GroupIs(ps: seq<Parsed>)
    requires forall i :: 0 <= i < |ps| ==> WellParsed(ps[i])
    ensures forall k :: k in Group(ps) <==> ClippingsFor(ps, k) != []
    ensures forall k :: k in Group(ps) ==> '\n' !in k && Group(ps)[k] == Book(TitleAuthor(k).0, TitleAuthor(k).1, ClippingsFor(ps, k))
  {
    AllWellParsedOf(ps);
    forall k
      ensures k in Group(ps) <==> ClippingsFor(ps, k) != []
      ensures k in Group(ps) ==> '\n' !in k && Group(ps)[k] == Book(TitleAuthor(k).0, TitleAuthor(k).1, ClippingsFor(ps, k))
    {
      GroupedAt(ps, k);
    }
  }

  /** Key `k` of the book map is there exactly for the title lines met, with
      the book read from it. */
  predicate GroupedAs(ps: seq<Parsed>, k: string) {
    && (k in Group(ps) <==> ClippingsFor(ps, k) != [])
    && (k in Group(ps) ==> '\n' !in k && Group(ps)[k] == Book(TitleAuthor(k).0, TitleAuthor(k).1, ClippingsFor(ps, k)))
  }

  /** Each entry well parsed, counted from the last one back. */
  predicate AllWellParsed(ps: seq<Parsed>) {
    ps != [] ==> AllWellParsed(ps[..|ps| - 1]) && WellParsed(ps[|ps| - 1])
  }

  lemma {:induction false} AllWellParsedOf(ps: seq<Parsed>)
    requires forall i :: 0 <= i < |ps| ==> WellParsed(ps[i])
    ensures AllWellParsed(ps)
    decreases |ps|
  {
    if ps != [] {
      var front := ps[..|ps| - 1];
      assert forall i :: 0 <= i < |front| ==> front[i] == ps[i];
      AllWellParsedOf(front);
    }
  }

  lemma {:induction false} GroupedAt(ps: seq<Parsed>, k: string)
    requires AllWellParsed(ps)
    ensures GroupedAs(ps, k)
    decreases |ps|
  {
    if ps != [] {
      GroupedAt(ps[..|ps| - 1], k);
      GroupStep(ps, k);
    }
  }

  lemma GroupStep(ps: seq<Parsed>, k: string)
    requires ps != [] && WellParsed(ps[|ps| - 1]) && GroupedAs(ps[..|ps| - 1], k)
    ensures GroupedAs(ps, k)
  {
  }

  function Prepend(done: seq<Parsed>, r: Result<seq<Parsed>, ParseError>): Result<seq<Parsed>, ParseError> {
    match r
    case Err(e) => Err(e)
    case Ok(ps) => Ok(done + ps)
  }

  /** One step of `CollectResults`. */
  lemma CollectAt(rs: seq<Result<Option<Parsed>, ParseError>>, i: nat)
    requires i < |rs|
    ensures CollectResults(rs[i..]) ==
      match rs[i]
      case Err(e) => Err(e)
      case Ok(o) => Prepend(Found(o), CollectResults(rs[i + 1..]))
  {
    assert rs[i..][1..] == rs[i + 1..];
  }

  lemma PrependEmpty(r: Result<seq<Parsed>, ParseError>)
    ensures Prepend([], r) == r
  {
    if r.Ok? {
      assert [] + r.value == r.value;
    }
  }

  lemma PrependAppend(done: seq<Parsed>, more: seq<Parsed>, r: Result<seq<Parsed>, ParseError>)
    ensures Prepend(done, Prepend(more, r)) == Prepend(done + more, r)
  {
    if r.Ok? {
      assert done + (more + r.value) == done + more + r.value;
    }
  }

  lemma PrependNothing(done: seq<Parsed>, r: Result<seq<Parsed>, ParseError>)
    ensures Prepend(done, Prepend([], r)) == Prepend(done, r)
  {
    if r.Ok? {
      assert [] + r.value == r.value;
    }
  }

  /** `parse_clippings_file` on the file's text: the books of all entries,
      or the error of an entry without an info line. */
  method ParseClippingsFile(content: string, sha: string -> Digest) returns (r: Result<map<string, Book>, ParseError>)
    ensures r.Err? <==> Collect(Entries(content), sha).Err?
    ensures r.Ok? ==> r.value == Group(Collect(Entries(content), sha).value)
    ensures r.Ok? ==> forall k :: k in r.value <==> ClippingsFor(Collect(Entries(content), sha).value, k) != []
    ensures r.Ok? ==> forall k :: k in r.value ==>
      '\n' !in k && r.value[k] == Book(TitleAuthor(k).0, TitleAuthor(k).1, ClippingsFor(Collect(Entries(content), sha).value, k))
  {
    var entries := Entries(content);
    r := ParseEntries(entries, sha);
    if r.Ok? {
      ParsedEntriesWellParsed(entries, sha);
      CollectedWellParsed(ParsedEntries(entries, sha));
      GroupIs(Collect(entries, sha).value);
    }
  }

  /** The loop of `parse_clippings_file` over the raw entries. */
  method ParseEntries(entries: seq<string>, sha: string -> Digest) returns (r: Result<map<string, Book>, ParseError>)
    ensures r.Err? <==> Collect(entries, sha).Err?
    ensures r.Ok? ==> r.value == Group(Collect(entries, sha).value)
  {
    ghost var rs := ParsedEntries(entries, sha);
    var books: map<string, Book> := map[];
    ghost var done: seq<Parsed> := [];
    var i := 0;
    assert rs[0..] == rs;
    PrependEmpty(CollectResults(rs));
    while i < |entries|
      invariant 0 <= i <= |entries|
      invariant books == Group(done)
      invariant CollectResults(rs) == Prepend(done, CollectResults(rs[i..]))
    {
      CollectAt(rs, i);
      var parsed := ParseEntry(entries[i], sha);
      assert parsed == rs[i];
      match parsed {
        case Err(e) =>
          return Err(e);
        case Ok(None) =>
          PrependNothing(done, CollectResults(rs[i + 1..]));
        case Ok(Some(p)) =>
          var prior := if p.titleLine in books then books[p.titleLine].clippings else [];
          books := books[p.titleLine := Book(p.title, p.author, prior + [p.clipping])];
          PrependAppend(done, [p], CollectResults(rs[i + 1..]));
          GroupAppend(done, p);
          done := done + [p];
      }
      i := i + 1;
    }
    assert rs[i..] == [];
    assert done + [] == done;
    return Ok(books);
  }
}
