/** The writing side of the Kindle clippings extractor
    (`kindle-clippings/src/lib.rs`): `scan_existing_hashes` collects the
    hashes already written to `.rst` files (`RE_HASHLINE`), and
    `write_all_books` appends each book's new clippings, each under a
    comment line ".. {hash} ; …" that the next scan recognises. The output
    tree is a map from path to file text; file names are sanitised by a
    parameter standing for `get_valid_filename`. */
module ClippingsOutput {
  import opened Wrappers
  import opened Text
  import opened Clippings
  import opened ClippingsParse

  // ------------------------------------------------------------- hash lines

  predicate IsHexChar(c: char) {
    '0' <= c <= '9' || 'a' <= c <= 'f' || 'A' <= c <= 'F'
  }

  /** `[a-fA-F0-9]{8}`. */
  predicate IsHexWord(h: string) {
    |h| == 8 && forall i :: 0 <= i < 8 ==> IsHexChar(h[i])
  }

  /** `RE_HASHLINE` (`^\.\.\s+([a-fA-F0-9]{8})`) on one line: the eight hex
      digits after "..", at least one whitespace character and no more
      whitespace. */
  function HashOfLine(line: string): (h: Option<string>)
    ensures h.Some? ==> IsHexWord(h.value)
  {
    if |line| < 2 || line[..2] != ".." then None
    else
      var n := LeadingWhitespace(line[2..]);
      if n == 0 || |line| < 2 + n + 8 then None
      else
        var h := line[2 + n..2 + n + 8];
        if IsHexWord(h) then Some(h) else None
  }

  /** A line "..", whitespace, eight hex digits and anything after: the
      digits are the hash. */
  lemma HashOfLineIs(ws: string, h: string, rest: string)
    requires ws != [] && forall i :: 0 <= i < |ws| ==> IsWhitespace(ws[i])
    requires IsHexWord(h)
    ensures HashOfLine(".." + ws + h + rest) == Some(h)
  {
    var line := ".." + ws + h + rest;
    assert line[..2] == "..";
    assert line[2..] == ws + (h + rest);
    assert !IsWhitespace((h + rest)[0]);
    LeadingWhitespaceIs(line[2..], |ws|);
    assert line[2 + |ws|..2 + |ws| + 8] == h;
  }

  /** A line `RE_HASHLINE` matches is "..", whitespace, the hash and the
      rest. */
  lemma HashOfLineParts(line: string) returns (ws: string, rest: string)
    requires HashOfLine(line).Some?
    ensures ws != [] && forall i :: 0 <= i < |ws| ==> IsWhitespace(ws[i])
    ensures line == ".." + ws + HashOfLine(line).value + rest
  {
    var n := LeadingWhitespace(line[2..]);
    ws := line[2..2 + n];
    rest := line[2 + n + 8..];
    assert line == line[..2] + line[2..2 + n] + line[2 + n..2 + n + 8] + line[2 + n + 8..];
  }

  /** Every lower-case hash is a hex word. */
  lemma HashIsHexWord(h: string)
    requires IsHash(h)
    ensures IsHexWord(h)
  {
  }

  // ------------------------------------------------------------------ scan

  /** `path.extension() == Some("rst")`: the name ends with ".rst" after a
      non-empty stem. */
  predicate IsRst(path: string) {
    |path| > 4 && path[|path| - 4..] == ".rst" && path[|path| - 5] != '/'
  }

  /** The hashes on the hash lines among `lines`. */
  function FileHashes(lines: seq<string>): set<string> {
    set i | 0 <= i < |lines| && HashOfLine(lines[i]).Some? :: HashOfLine(lines[i]).value
  }

  /** The hashes in the `.rst` files among `names`. */
  function ScanOf(files: map<string, string>, names: set<string>): set<string> {
    set name, h | name in names && name in files && IsRst(name) && h in FileHashes(Lines(files[name])) :: h
  }

  /** `scan_existing_hashes`: the hashes on the hash lines of all the `.rst`
      files. */
  function ScanHashes(files: map<string, string>): set<string> {
    ScanOf(files, files.Keys)
  }

  /** Each file is empty or ends with a line ending, as every file this
      program writes does. */
  predicate Terminated(files: map<string, string>) {
    forall name :: name in files ==> Ended(files[name])
  }

  predicate Ended(s: string) {
    s == [] || s[|s| - 1] == '\n'
  }

  /** A hash found on line `i` of a scanned file is in the scan. */
  lemma ScanFinds(files: map<string, string>, name: string, i: nat)
    requires name in files && IsRst(name)
    requires i < |Lines(files[name])| && HashOfLine(Lines(files[name])[i]).Some?
    ensures HashOfLine(Lines(files[name])[i]).value in ScanHashes(files)
  {
    var h := HashOfLine(Lines(files[name])[i]).value;
    assert h in FileHashes(Lines(files[name]));
  }

  /** The text of a file, empty when the file does not exist yet. */
  function Content(files: map<string, string>, name: string): string {
    if name in files then files[name] else ""
  }

  /** `OpenOptions::new().append(true).create(true)` followed by writes. */
  function Appended(files: map<string, string>, name: string, text: string): map<string, string> {
    files[name := Content(files, name) + text]
  }

  /** Appending to a terminated file keeps each of its lines. */
  lemma LineKept(files: map<string, string>, name: string, text: string, n: string, i: nat)
    requires Terminated(files) && n in files && i < |Lines(files[n])|
    ensures n in Appended(files, name, text)
    ensures i < |Lines(Appended(files, name, text)[n])|
    ensures Lines(Appended(files, name, text)[n])[i] == Lines(files[n])[i]
  {
    if n == name {
      assert Ended(files[n]);
      LinesAppend(files[n], text);
    }
  }

  /** Appending to a terminated file keeps every hash line it had. */
  lemma ScanGrows(files: map<string, string>, name: string, text: string)
    requires Terminated(files)
    ensures ScanHashes(files) <= ScanHashes(Appended(files, name, text))
  {
    var after := Appended(files, name, text);
    forall x | x in ScanHashes(files)
      ensures x in ScanHashes(after)
    {
      var n :| n in files && IsRst(n) && x in FileHashes(Lines(files[n]));
      var i :| 0 <= i < |Lines(files[n])| && HashOfLine(Lines(files[n])[i]).Some? && x == HashOfLine(Lines(files[n])[i]).value;
      LineKept(files, name, text, n, i);
      ScanFinds(after, n, i);
    }
  }

  lemma EndedAppend(a: string, b: string)
    requires Ended(a) && Ended(b)
    ensures Ended(a + b)
  {
    if b == [] {
      assert a + b == a;
    }
  }

  // ----------------------------------------------------------------- write

  /** The clippings whose hash is not among the existing ones, in order. */
  function Fresh(cs: seq<Clipping>, existing: set<string>): (r: seq<Clipping>)
    ensures |r| <= |cs|
    ensures forall c :: c in r <==> c in cs && c.hash !in existing
    ensures r == [] <==> forall c :: c in cs ==> c.hash in existing
  {
    if cs == [] then []
    else
      assert cs == [cs[0]] + cs[1..];
      (if cs[0].hash in existing then [] else [cs[0]]) + Fresh(cs[1..], existing)
  }

  /** Books of at most two clippings go to the shared short-notes file. */
  predicate IsShort(book: Book) {
    |book.clippings| <= 2
  }

  /** The file name before `get_valid_filename`. */
  function RawFileName(book: Book): string {
    if IsShort(book) then "short_notes.rst" else book.author + " - " + ShortTitle(book.title) + ".rst"
  }

  function Repeat(c: char, n: nat): (s: string)
    ensures |s| == n && forall i :: 0 <= i < n ==> s[i] == c
  {
    if n == 0 then [] else [c] + Repeat(c, n - 1)
  }

  /** `str::replace` of a character by a string. */
  function Replace(s: string, c: char, with: string): (r: string)
    ensures c !in with ==> c !in r
  {
    if s == [] then [] else (if s[0] == c then with else [s[0]]) + Replace(s[1..], c, with)
  }

  /** The heading written before the new clippings of a book: the
      author and title underlined with dashes on every write to the
      short-notes file; "Highlights from" the title underlined with '='
      and an ":authors:" field only when a long book's file is new. The
      underline is as long as the heading's UTF-8 bytes. */
  function Header(book: Book, isNew: bool): (h: string)
    ensures Ended(h)
  {
    if IsShort(book) then
      var t := if book.author != "Unknown" then book.author + " - " + book.title else book.title;
      t + "\n" + Repeat('-', Utf8Len(t)) + "\n\n"
    else if isNew then
      var t := "Highlights from " + book.title;
      var authors := if book.author != "Unknown" then ":authors: " + Replace(book.author, ';', ", ") + "\n\n" else "";
      EndedAppend(t + "\n" + Repeat('=', Utf8Len(t)) + "\n\n", authors);
      t + "\n" + Repeat('=', Utf8Len(t)) + "\n\n" + authors
    else ""
  }

  /** The comment introducing a clipping: ".. hash ; type ; location ;
      date", with " ; author ; title" in the short-notes file. */
  function Comment(c: Clipping, book: Book): string {
    ".. " + c.hash + (" ; " + c.noteType + " ; " + c.location + " ; " + c.dateStr
      + (if IsShort(book) then " ; " + book.author + " ; " + book.title else ""))
  }

  /** One clipping as written: its comment, a blank line, its text and a
      blank line. */
  function Note(c: Clipping, book: Book): (s: string)
    ensures Ended(s)
  {
    Comment(c, book) + "\n\n" + (c.text + "\n\n")
  }

  /** The texts `f` gives for `cs`, one after another. */
  function Concat(cs: seq<Clipping>, f: Clipping -> string): string {
    if cs == [] then [] else Concat(cs[..|cs| - 1], f) + f(cs[|cs| - 1])
  }

  function NoteOf(book: Book): Clipping -> string {
    c => Note(c, book)
  }

  /** The clippings `cs` as written for `book`, in order. */
  function Notes(cs: seq<Clipping>, book: Book): (s: string)
    ensures Ended(s)
  {
    ConcatEnded(cs, NoteOf(book));
    Concat(cs, NoteOf(book))
  }

  /** One book of `write_all_books`: nothing when it has no new clipping;
      otherwise its file gets the heading and the new clippings appended. */
  function BookWritten(files: map<string, string>, book: Book, existing: set<string>, sanitize: string -> string): map<string, string> {
    var news := Fresh(book.clippings, existing);
    if news == [] then files
    else
      var name := sanitize(RawFileName(book));
      Appended(files, name, Header(book, name !in files) + Notes(news, book))
  }

  /** `write_all_books` over the books in the order they are visited. */
  function AllWritten(files: map<string, string>, books: seq<Book>, existing: set<string>, sanitize: string -> string): map<string, string> {
    if books == [] then files
    else BookWritten(AllWritten(files, books[..|books| - 1], existing, sanitize), books[|books| - 1], existing, sanitize)
  }

  // ------------------------------------------------------------ rerunning

  /** A line beginning ".. ", a short hash and " ; " is a hash line
      carrying that hash. */
  lemma HashLineFirst(h: string, u: string, j: nat)
    requires IsHash(h) && j < |u| && u[j] == '\n'
    ensures Lines(".. " + h + " ; " + u) != []
    ensures HashOfLine(Lines(".. " + h + " ; " + u)[0]) == Some(h)
  {
    var p := ".. " + h + " ; ";
    var a := p + u;
    assert a[14 + j] == '\n';
    forall k | 0 <= k < 14
      ensures a[k] != '\n'
    {
      assert a[k] == p[k];
    }
    var i := IndexOf(a, '\n');
    LinesHead(a);
    var line := StripCR(a[..i]);
    StripCRKeeps(a[..i], 11);
    assert a[..i][..11] == ".. " + h;
    assert line == ".." + " " + h + line[11..] by {
      assert line == line[..11] + line[11..];
    }
    HashIsHexWord(h);
    HashOfLineIs(" ", h, line[11..]);
  }

  /** Dropping a final '\r' keeps the first `n` characters of a longer line. */
  lemma StripCRKeeps(l: string, n: nat)
    requires n < |l|
    ensures n <= |StripCR(l)| && StripCR(l)[..n] == l[..n]
  {
  }

  /** The first line of a written clipping is a hash line carrying its
      hash, whatever follows it in the file. */
  lemma NoteLine(c: Clipping, book: Book, rest: string)
    requires IsHash(c.hash)
    ensures Lines(Note(c, book) + rest) != []
    ensures HashOfLine(Lines(Note(c, book) + rest)[0]) == Some(c.hash)
  {
    var tail := c.noteType + " ; " + c.location + " ; " + c.dateStr
      + (if IsShort(book) then " ; " + book.author + " ; " + book.title else "");
    var u := tail + "\n\n" + (c.text + "\n\n") + rest;
    assert Note(c, book) + rest == ".. " + c.hash + " ; " + u;
    assert u[|tail|] == '\n';
    HashLineFirst(c.hash, u, |tail|);
  }

  lemma {:induction false} ConcatEnded(cs: seq<Clipping>, f: Clipping -> string)
    requires forall c :: Ended(f(c))
    ensures Ended(Concat(cs, f))
    decreases |cs|
  {
    if cs != [] {
      ConcatEnded(cs[..|cs| - 1], f);
      EndedAppend(Concat(cs[..|cs| - 1], f), f(cs[|cs| - 1]));
    }
  }

  lemma {:induction false} ConcatAppend(a: seq<Clipping>, b: seq<Clipping>, f: Clipping -> string)
    ensures Concat(a + b, f) == Concat(a, f) + Concat(b, f)
    decreases |b|
  {
    if b == [] {
      assert a + b == a;
    } else {
      var b' := b[..|b| - 1];
      assert (a + b)[..|a + b| - 1] == a + b';
      ConcatAppend(a, b', f);
    }
  }

  /** The texts around the `k`-th one. */
  lemma ConcatSplit(cs: seq<Clipping>, k: nat, f: Clipping -> string)
    requires k < |cs|
    ensures Concat(cs, f) == Concat(cs[..k], f) + (f(cs[k]) + Concat(cs[k + 1..], f))
  {
    ConcatAt(cs, k + 1, f);
    ConcatUpTo(cs, k, f);
    AppendAssoc(Concat(cs[..k], f), f(cs[k]), Concat(cs[k + 1..], f));
  }

  lemma ConcatAt(cs: seq<Clipping>, n: nat, f: Clipping -> string)
    requires n <= |cs|
    ensures Concat(cs, f) == Concat(cs[..n], f) + Concat(cs[n..], f)
  {
    assert cs == cs[..n] + cs[n..];
    ConcatAppend(cs[..n], cs[n..], f);
  }

  lemma ConcatUpTo(cs: seq<Clipping>, k: nat, f: Clipping -> string)
    requires k < |cs|
    ensures Concat(cs[..k + 1], f) == Concat(cs[..k], f) + f(cs[k])
  {
    assert cs[..k + 1][..k] == cs[..k];
  }

  /** Each clipping in a run of written clippings leaves a hash line with its
      hash in the file. */
  lemma NotesScanned(prefix: string, cs: seq<Clipping>, book: Book, k: nat) returns (i: nat)
    requires Ended(prefix) && k < |cs| && IsHash(cs[k].hash)
    ensures i < |Lines(prefix + Notes(cs, book))|
    ensures HashOfLine(Lines(prefix + Notes(cs, book))[i]) == Some(cs[k].hash)
  {
    ConcatSplit(cs, k, NoteOf(book));
    var n1, n2 := Notes(cs[..k], book), Notes(cs[k + 1..], book);
    LinesAround(prefix, n1, Note(cs[k], book) + n2);
    NoteLine(cs[k], book, n2);
    i := |Lines(prefix + n1)|;
  }

  /** The lines of terminated text followed by more text. */
  lemma LinesAround(prefix: string, n1: string, rest: string)
    requires Ended(prefix) && Ended(n1)
    ensures Lines(prefix + (n1 + rest)) == Lines(prefix + n1) + Lines(rest)
  {
    EndedAppend(prefix, n1);
    AppendAssoc(prefix, n1, rest);
    LinesAppend(prefix + n1, rest);
  }

  /** Writing one book keeps every file terminated and every hash line, and
      afterwards each of its clippings' hashes is either an existing one or
      on a hash line of a scanned file. */
  lemma BookScanned(files: map<string, string>, book: Book, existing: set<string>, sanitize: string -> string)
    requires Terminated(files)
    requires IsRst(sanitize(RawFileName(book)))
    requires forall c :: c in book.clippings ==> IsHash(c.hash)
    ensures Terminated(BookWritten(files, book, existing, sanitize))
    ensures ScanHashes(files) <= ScanHashes(BookWritten(files, book, existing, sanitize))
    ensures forall c :: c in book.clippings ==>
      c.hash in existing || c.hash in ScanHashes(BookWritten(files, book, existing, sanitize))
  {
    var news := Fresh(book.clippings, existing);
    if news != [] {
      var name := sanitize(RawFileName(book));
      AppendedScanned(files, name, Header(book, name !in files), news, book);
    }
  }

  /** Appending a heading and clippings to a `.rst` file keeps the files
      terminated and the hash lines they had, and adds a hash line for each
      clipping. */
  lemma AppendedScanned(files: map<string, string>, name: string, head: string, cs: seq<Clipping>, book: Book)
    requires Terminated(files) && IsRst(name) && Ended(head)
    requires forall c :: c in cs ==> IsHash(c.hash)
    ensures Terminated(Appended(files, name, head + Notes(cs, book)))
    ensures ScanHashes(files) <= ScanHashes(Appended(files, name, head + Notes(cs, book)))
    ensures forall c :: c in cs ==> c.hash in ScanHashes(Appended(files, name, head + Notes(cs, book)))
  {
    var text := head + Notes(cs, book);
    EndedAppend(head, Notes(cs, book));
    AppendedTerminated(files, name, text);
    ScanGrows(files, name, text);
    forall c | c in cs
      ensures c.hash in ScanHashes(Appended(files, name, text))
    {
      var k :| 0 <= k < |cs| && cs[k] == c;
      NoteScanned(files, name, head, cs, book, k);
    }
  }

  lemma AppendedTerminated(files: map<string, string>, name: string, text: string)
    requires Terminated(files) && Ended(text)
    ensures Terminated(Appended(files, name, text))
  {
    EndedAppend(Content(files, name), text);
  }

  /** The `k`-th clipping written to a `.rst` file is found by the scan. */
  lemma NoteScanned(files: map<string, string>, name: string, head: string, cs: seq<Clipping>, book: Book, k: nat)
    requires Terminated(files) && IsRst(name) && Ended(head)
    requires k < |cs| && IsHash(cs[k].hash)
    ensures cs[k].hash in ScanHashes(Appended(files, name, head + Notes(cs, book)))
  {
    var prefix := Content(files, name) + head;
    var after := Appended(files, name, head + Notes(cs, book));
    AppendAssoc(Content(files, name), head, Notes(cs, book));
    assert after[name] == prefix + Notes(cs, book);
    EndedAppend(Content(files, name), head);
    var i := NotesScanned(prefix, cs, book, k);
    ScanFinds(after, name, i);
  }

  /** Every book's file name, once sanitised, is a `.rst` name. */
  predicate RstNames(books: seq<Book>, sanitize: string -> string) {
    forall b :: b in books ==> IsRst(sanitize(RawFileName(b)))
  }

  /** Every clipping carries a short hash, as parsed clippings do. */
  predicate Hashed(books: seq<Book>) {
    forall b, c :: b in books && c in b.clippings ==> IsHash(c.hash)
  }

  /** After `write_all_books` with hashes taken from the files it appends
      to, every clipping of every book is found by the next scan. */
  lemma {:induction false} AllScanned(files: map<string, string>, books: seq<Book>, existing: set<string>, sanitize: string -> string)
    requires Terminated(files) && existing <= ScanHashes(files)
    requires RstNames(books, sanitize) && Hashed(books)
    ensures Terminated(AllWritten(files, books, existing, sanitize))
    ensures ScanHashes(files) <= ScanHashes(AllWritten(files, books, existing, sanitize))
    ensures forall b, c :: b in books && c in b.clippings ==> c.hash in ScanHashes(AllWritten(files, books, existing, sanitize))
    decreases |books|
  {
    if books != [] {
      var init, last := books[..|books| - 1], books[|books| - 1];
      assert books == init + [last];
      AllScanned(files, init, existing, sanitize);
      var mid := AllWritten(files, init, existing, sanitize);
      BookScanned(mid, last, existing, sanitize);
    }
  }

  /** With every hash already present, `write_all_books` writes nothing. */
  lemma {:induction false} NothingNew(files: map<string, string>, books: seq<Book>, existing: set<string>, sanitize: string -> string)
    requires forall b, c :: b in books && c in b.clippings ==> c.hash in existing
    ensures AllWritten(files, books, existing, sanitize) == files
    decreases |books|
  {
    if books != [] {
      var init, last := books[..|books| - 1], books[|books| - 1];
      assert books == init + [last];
      NothingNew(files, init, existing, sanitize);
    }
  }

  /** Running the program a second time on the same clippings file, after a
      first run that scanned and wrote the same output directory, changes
      no file. The `HashMap` of books is seeded anew in each process, so the
      second run may visit the books (`again`) in any other order. */
  lemma Rerun(files: map<string, string>, books: seq<Book>, again: seq<Book>, sanitize: string -> string)
    requires Terminated(files) && RstNames(books, sanitize) && Hashed(books)
    requires forall b :: b in again ==> b in books
    ensures var after := AllWritten(files, books, ScanHashes(files), sanitize);
      AllWritten(after, again, ScanHashes(after), sanitize) == after
  {
    var after := AllWritten(files, books, ScanHashes(files), sanitize);
    AllScanned(files, books, ScanHashes(files), sanitize);
    NothingNew(after, again, ScanHashes(after), sanitize);
  }

  /** `write_all_books` only appends: every file keeps its text as a
      prefix, and no file disappears. */
  lemma {:induction false} AllWrittenAppends(files: map<string, string>, books: seq<Book>, existing: set<string>, sanitize: string -> string)
    ensures forall n :: n in files ==>
      n in AllWritten(files, books, existing, sanitize) && files[n] <= AllWritten(files, books, existing, sanitize)[n]
    decreases |books|
  {
    if books != [] {
      AllWrittenAppends(files, books[..|books| - 1], existing, sanitize);
    }
  }

  // ------------------------------------------------------- the whole program

  /** The clippings grouped under one title line all carry short hashes. */
  lemma {:induction false} ClippingsForHashed(ps: seq<Parsed>, k: string)
    requires forall i :: 0 <= i < |ps| ==> WellParsed(ps[i])
    ensures forall c :: c in ClippingsFor(ps, k) ==> IsHash(c.hash)
  {
    if ps != [] {
      var front := ps[..|ps| - 1];
      assert forall i :: 0 <= i < |front| ==> front[i] == ps[i];
      ClippingsForHashed(front, k);
      assert WellParsed(ps[|ps| - 1]);
    }
  }

  /** `run` twice on the same clippings file: whatever the order in which
      the books are visited, the second run changes no file. */
  lemma RerunOfFile(content: string, sha: string -> Digest, files: map<string, string>,
                    books: seq<Book>, again: seq<Book>, sanitize: string -> string)
    requires Collect(Entries(content), sha).Ok?
    requires forall b :: b in books ==> b in Group(Collect(Entries(content), sha).value).Values
    requires forall b :: b in again ==> b in books
    requires Terminated(files) && RstNames(books, sanitize)
    ensures var after := AllWritten(files, books, ScanHashes(files), sanitize);
      AllWritten(after, again, ScanHashes(after), sanitize) == after
  {
    var ps := Collect(Entries(content), sha).value;
    ParsedEntriesWellParsed(Entries(content), sha);
    CollectedWellParsed(ParsedEntries(Entries(content), sha));
    GroupIs(ps);
    forall b, c | b in books && c in b.clippings
      ensures IsHash(c.hash)
    {
      var k :| k in Group(ps) && Group(ps)[k] == b;
      ClippingsForHashed(ps, k);
    }
    Rerun(files, books, again, sanitize);
  }

  // ------------------------------------------------------------ in place

  /** The output directory tree: each file's path and text. */
  class OutputDir {
    var files: map<string, string>

    constructor (files: map<string, string>)
      ensures this.files == files
    {
      this.files := files;
    }

    /** Open `name` for appending, creating it if need be, and write `text`. */
    method Append(name: string, text: string)
      modifies this
      ensures files == Appended(old(files), name, text)
    {
      files := files[name := Content(files, name) + text];
    }

    /** `scan_existing_hashes`: walk the files and collect the hash of every
        hash line of every `.rst` file. */
    method ScanExistingHashes() returns (hashes: set<string>)
      ensures hashes == ScanHashes(files)
    {
      hashes := {};
      var todo := files.Keys;
      ghost var done: set<string> := {};
      while todo != {}
        invariant todo + done == files.Keys && todo !! done
        invariant hashes == ScanOf(files, done)
        decreases |todo|
      {
        var name :| name in todo;
        if IsRst(name) {
          var found := ScanLines(Lines(files[name]));
          hashes := hashes + found;
        }
        ScanOfStep(files, done, name);
        todo := todo - {name};
        done := done + {name};
      }
      assert done == files.Keys;
    }

    /** One book of `write_all_books`. */
    method WriteBook(book: Book, existing: set<string>, sanitize: string -> string)
      modifies this
      ensures files == BookWritten(old(files), book, existing, sanitize)
    {
      var news := Fresh(book.clippings, existing);
      if news != [] {
        var name := sanitize(RawFileName(book));
        WriteFile(name, Header(book, name !in files), news, book);
      }
    }

    /** Open a book's file for appending and write its heading and its new
        clippings. */
    method WriteFile(name: string, head: string, cs: seq<Clipping>, book: Book)
      modifies this
      ensures files == Appended(old(files), name, head + Notes(cs, book))
    {
      Append(name, head);
      WriteNotes(name, cs, book);
      AppendAssoc(Content(old(files), name), head, Notes(cs, book));
    }

    /** The loop over a book's new clippings: each one's comment and text. */
    method WriteNotes(name: string, cs: seq<Clipping>, book: Book)
      requires name in files
      modifies this
      ensures files == old(files)[name := old(files)[name] + Concat(cs, NoteOf(book))]
    {
      ghost var start := files[name];
      var j := 0;
      assert start + Concat(cs[..0], NoteOf(book)) == start;
      while j < |cs|
        invariant 0 <= j <= |cs|
        invariant files == old(files)[name := start + Concat(cs[..j], NoteOf(book))]
      {
        WriteNote(name, cs[j], book);
        ConcatStep(start, cs, j, NoteOf(book));
        j := j + 1;
      }
      assert cs[..j] == cs;
    }

    /** One clipping: its comment, a blank line, its text and a blank line. */
    method WriteNote(name: string, c: Clipping, book: Book)
      requires name in files
      modifies this
      ensures files == old(files)[name := old(files)[name] + NoteOf(book)(c)]
    {
      Append(name, Comment(c, book) + "\n\n");
      Append(name, c.text + "\n\n");
      AppendAssoc(old(files)[name], Comment(c, book) + "\n\n", c.text + "\n\n");
    }

    /** `write_all_books`, visiting `books` in the order given (the order
        in which the book map yields its values). */
    method WriteAllBooks(books: seq<Book>, existing: set<string>, sanitize: string -> string)
      modifies this
      ensures files == AllWritten(old(files), books, existing, sanitize)
    {
      var i := 0;
      while i < |books|
        invariant 0 <= i <= |books|
        invariant files == AllWritten(old(files), books[..i], existing, sanitize)
      {
        WriteBook(books[i], existing, sanitize);
        assert books[..i + 1][..i] == books[..i];
        i := i + 1;
      }
      assert books[..i] == books;
    }
  }

  /** The loop over the lines of one `.rst` file. */
  method ScanLines(lines: seq<string>) returns (found: set<string>)
    ensures found == FileHashes(lines)
  {
    found := {};
    var j := 0;
    while j < |lines|
      invariant 0 <= j <= |lines|
      invariant found == FileHashes(lines[..j])
    {
      FileHashesStep(lines, j);
      match HashOfLine(lines[j]) {
        case Some(h) =>
          found := found + {h};
        case None =>
      }
      j := j + 1;
    }
    assert lines[..j] == lines;
  }

  lemma FileHashesStep(lines: seq<string>, j: nat)
    requires j < |lines|
    ensures FileHashes(lines[..j + 1]) ==
      FileHashes(lines[..j]) + (if HashOfLine(lines[j]).Some? then {HashOfLine(lines[j]).value} else {})
  {
    var a, b := lines[..j + 1], lines[..j];
    assert forall i :: 0 <= i < j ==> a[i] == b[i];
    assert a[j] == lines[j];
  }

  lemma ScanOfStep(files: map<string, string>, done: set<string>, name: string)
    requires name in files
    ensures ScanOf(files, done + {name}) ==
      ScanOf(files, done) + (if IsRst(name) then FileHashes(Lines(files[name])) else {})
  {
  }

  /** Writing one more clipping extends the written text by its own. */
  lemma ConcatStep(start: string, cs: seq<Clipping>, j: nat, f: Clipping -> string)
    requires j < |cs|
    ensures start + Concat(cs[..j + 1], f) == start + Concat(cs[..j], f) + f(cs[j])
  {
    assert cs[..j + 1][..j] == cs[..j];
    AppendAssoc(start, Concat(cs[..j], f), f(cs[j]));
  }
}
